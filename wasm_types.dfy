/**
  The type section of a Wasm module (`parseTypeSection`) and the lookups the
  frontend makes in the type table it builds (`reduceTypeIndex`,
  `getSigIndexForBlock`).

  The frontend stores every function type of the section as a signature and
  replaces a signature equal to an earlier one by FORWARD to the index of the
  first one, so that indirect calls through two indices with the same
  signature see the same type. Five signatures for the block types
  `() => ()`, `() => i32`, `() => i64`, `() => f32` and `() => f64` follow the
  declared ones.
*/
module WasmTypes {
  import opened UInt
  import opened DwarfBytes
  import opened WasmReader
  import opened WasmSections

  /** What a read yields when `n` bytes were read before it. */
  function Shift<T>(n: nat, r: Result<(T, nat)>): Result<(T, nat)> {
    match r
    case Err(c) => Err(c)
    case Ok(p) => Ok((p.0, n + p.1))
  }

  // ---------------------------------------------------------------------
  // Value types
  // ---------------------------------------------------------------------

  /** The only type form the frontend accepts: a function type. */
  const FUNC_TYPE_FORM: u8 := 0x60

  /** The value-type bytes of section 5.3.1 of the WebAssembly Core Specification. */
  function ValueTypeByte(t: ValueType): u8 {
    match t
    case I32 => 0x7F
    case I64 => 0x7E
    case F32 => 0x7D
    case F64 => 0x7C
  }

  /** `validateWasmType` and the type it names; any other byte is not a value type. */
  function DecodeValueType(b: u8): (r: Option<ValueType>)
    ensures r.Some? <==> 0x7C <= b <= 0x7F
    ensures r.Some? ==> ValueTypeByte(r.value) == b
  {
    if b == 0x7F then Some(I32)
    else if b == 0x7E then Some(I64)
    else if b == 0x7D then Some(F32)
    else if b == 0x7C then Some(F64)
    else None
  }

  /**
    `n` value types, one byte each. A byte that is not a value type throws
    `invalid`; running out of bytes throws the reader's error.
  */
  function DecodeValueTypes(bs: seq<u8>, n: nat, invalid: ErrorCode): (r: Result<(seq<ValueType>, nat)>)
    ensures r.Ok? ==> |r.value.0| == n == r.value.1 <= |bs|
    ensures r.Err? ==> r.code == ReadPastEnd || r.code == invalid
    decreases n
  {
    if n == 0 then Ok(([], 0))
    else if bs == [] then Err(ReadPastEnd)
    else
      match DecodeValueType(bs[0])
      case None => Err(invalid)
      case Some(t) => Prepend([t], 1, DecodeValueTypes(bs[1..], n - 1, invalid))
  }

  function ValueTypesBytes(ts: seq<ValueType>): (bs: seq<u8>)
    ensures |bs| == |ts|
  {
    seq(|ts|, k requires 0 <= k < |ts| => ValueTypeByte(ts[k]))
  }

  /** Value types read back from their bytes, whatever follows them. */
  lemma {:induction false} ValueTypesRoundTrip(ts: seq<ValueType>, rest: seq<u8>, invalid: ErrorCode)
    ensures DecodeValueTypes(ValueTypesBytes(ts) + rest, |ts|, invalid) == Ok((ts, |ts|))
  {
    if ts != [] {
      var bs := ValueTypesBytes(ts) + rest;
      assert bs[0] == ValueTypeByte(ts[0]);
      assert DecodeValueType(bs[0]) == Some(ts[0]);
      assert bs[1..] == ValueTypesBytes(ts[1..]) + rest;
      var tail := DecodeValueTypes(bs[1..], |ts| - 1, invalid);
      assert DecodeValueTypes(bs, |ts|, invalid) == Prepend([ts[0]], 1, tail);
      ValueTypesRoundTrip(ts[1..], rest, invalid);
      assert ts == [ts[0]] + ts[1..];
      PrependOne(ts[0], 1, ts[1..], |ts| - 1, ts, |ts|);
    }
  }

  /** A count of value types, at most `limit` of them, then the types. */
  function DecodeTypeVector(bs: seq<u8>, limit: u32, tooMany: ErrorCode, invalid: ErrorCode)
    : (r: Result<(seq<ValueType>, nat)>)
    ensures r.Ok? ==> |r.value.0| <= limit as nat && 1 <= r.value.1 <= |bs|
  {
    match Leb(bs)
    case Err(c) => Err(c)
    case Ok(count) =>
      if count.0 > limit then Err(tooMany)
      else Shift(count.1, DecodeValueTypes(bs[count.1..], count.0 as nat, invalid))
  }

  /** A type vector that can be written: its count fits a `uint32_t`. */
  predicate VectorFits(ts: seq<ValueType>) {
    |ts| < TWO32
  }

  function TypeVectorBytes(ts: seq<ValueType>): seq<u8>
    requires VectorFits(ts)
  {
    ULeb(|ts|) + ValueTypesBytes(ts)
  }

  /** A type vector read back: its types when there are at most `limit`, else `tooMany`. */
  lemma {:induction false} TypeVectorRoundTrip(ts: seq<ValueType>, rest: seq<u8>, limit: u32, tooMany: ErrorCode,
                                               invalid: ErrorCode)
    requires VectorFits(ts)
    ensures DecodeTypeVector(TypeVectorBytes(ts) + rest, limit, tooMany, invalid) ==
      if |ts| > limit as nat then Err(tooMany) else Ok((ts, |TypeVectorBytes(ts)|))
  {
    var bs := TypeVectorBytes(ts) + rest;
    var tail := ValueTypesBytes(ts) + rest;
    assert bs == ULeb(|ts|) + tail;
    LebRoundTrip(|ts|, tail);
    assert bs[|ULeb(|ts|)|..] == tail;
    ValueTypesRoundTrip(ts, rest, invalid);
  }

  // ---------------------------------------------------------------------
  // Function types
  // ---------------------------------------------------------------------

  /** The signature keeps to the implementation limits on parameters and results. */
  predicate WithinLimits(s: Signature, limits: ImplementationLimits) {
    |s.params| <= limits.numParams as nat && |s.results| <= limits.numResults as nat
  }

  /** The check a function type fails first, if any. */
  function LimitError(s: Signature, limits: ImplementationLimits): (r: Option<ErrorCode>)
    ensures r.None? <==> WithinLimits(s, limits)
  {
    if |s.params| > limits.numParams as nat then Some(TooManyParams)
    else if |s.results| > limits.numResults as nat then Some(TooManyResults)
    else None
  }

  /** The form byte 0x60, the parameter types, then the result types. */
  function DecodeFuncType(bs: seq<u8>, limits: ImplementationLimits): (r: Result<(Signature, nat)>)
    ensures r.Ok? ==> WithinLimits(r.value.0, limits) && 1 <= r.value.1 <= |bs|
  {
    if bs == [] then Err(ReadPastEnd)
    else if bs[0] != FUNC_TYPE_FORM then Err(WrongTypeForm)
    else Shift(1, DecodeSignature(bs[1..], limits))
  }

  /** The two type vectors of a function type. */
  function DecodeSignature(bs: seq<u8>, limits: ImplementationLimits): (r: Result<(Signature, nat)>)
    ensures r.Ok? ==> WithinLimits(r.value.0, limits) && r.value.1 <= |bs|
  {
    match DecodeTypeVector(bs, limits.numParams, TooManyParams, InvalidParamType)
    case Err(c) => Err(c)
    case Ok(params) =>
      match DecodeTypeVector(bs[params.1..], limits.numResults, TooManyResults, InvalidReturnType)
      case Err(c) => Err(c)
      case Ok(results) => Ok((Signature(params.0, results.0), params.1 + results.1))
  }

  predicate SignatureFits(s: Signature) {
    VectorFits(s.params) && VectorFits(s.results)
  }

  function FuncTypeBytes(s: Signature): seq<u8>
    requires SignatureFits(s)
  {
    [FUNC_TYPE_FORM] + TypeVectorBytes(s.params) + TypeVectorBytes(s.results)
  }

  /** A function type read back: the signature within the limits, else the first limit it breaks. */
  lemma {:induction false} FuncTypeRoundTrip(s: Signature, rest: seq<u8>, limits: ImplementationLimits)
    requires SignatureFits(s)
    ensures DecodeFuncType(FuncTypeBytes(s) + rest, limits) ==
      if LimitError(s, limits).Some? then Err(LimitError(s, limits).value) else Ok((s, |FuncTypeBytes(s)|))
  {
    var bs := FuncTypeBytes(s) + rest;
    var tail := TypeVectorBytes(s.results) + rest;
    var body := TypeVectorBytes(s.params) + tail;
    assert bs == [FUNC_TYPE_FORM] + body;
    var n := |TypeVectorBytes(s.params)|;
    assert body[n..] == tail;
    var params := DecodeTypeVector(body, limits.numParams, TooManyParams, InvalidParamType);
    var results := DecodeTypeVector(tail, limits.numResults, TooManyResults, InvalidReturnType);
    TypeVectorRoundTrip(s.params, tail, limits.numParams, TooManyParams, InvalidParamType);
    TypeVectorRoundTrip(s.results, rest, limits.numResults, TooManyResults, InvalidReturnType);
    FuncTypeFrom(bs, body, limits, params, tail, results);
    if |s.params| > limits.numParams as nat {
      assert params == Err(TooManyParams);
    } else if |s.results| > limits.numResults as nat {
      assert results == Err(TooManyResults);
    } else {
      assert params == Ok((s.params, n)) && results == Ok((s.results, |TypeVectorBytes(s.results)|));
      assert |FuncTypeBytes(s)| == 1 + n + |TypeVectorBytes(s.results)|;
    }
  }

  /** A function type from what its two type vectors decode to. */
  lemma {:induction false} FuncTypeFrom(bs: seq<u8>, body: seq<u8>, limits: ImplementationLimits,
                                        params: Result<(seq<ValueType>, nat)>, tail: seq<u8>,
                                        results: Result<(seq<ValueType>, nat)>)
    requires bs == [FUNC_TYPE_FORM] + body
    requires params == DecodeTypeVector(body, limits.numParams, TooManyParams, InvalidParamType)
    requires params.Ok? ==> params.value.1 <= |body| && body[params.value.1..] == tail
    requires results == DecodeTypeVector(tail, limits.numResults, TooManyResults, InvalidReturnType)
    ensures DecodeFuncType(bs, limits) ==
      match params
      case Err(c) => Err(c)
      case Ok(p) =>
        match results
        case Err(c) => Err(c)
        case Ok(q) => Ok((Signature(p.0, q.0), 1 + p.1 + q.1))
  {
    assert bs[1..] == body;
  }

  /** `count` function types, one after the other. */
  function DecodeFuncTypes(bs: seq<u8>, count: nat, limits: ImplementationLimits): (r: Result<(seq<Signature>, nat)>)
    ensures r.Ok? ==> |r.value.0| == count && r.value.1 <= |bs|
    decreases count, 1
  {
    if count == 0 then Ok(([], 0)) else FuncTypesAfter(bs, count, limits, DecodeFuncType(bs, limits))
  }

  /** The first of `count` function types, once read or failed, then the others. */
  function FuncTypesAfter(bs: seq<u8>, count: nat, limits: ImplementationLimits, first: Result<(Signature, nat)>)
    : (r: Result<(seq<Signature>, nat)>)
    requires count > 0 && (first.Ok? ==> first.value.1 <= |bs|)
    ensures r.Ok? ==> |r.value.0| == count && r.value.1 <= |bs|
    decreases count, 0
  {
    match first
    case Err(c) => Err(c)
    case Ok(s) => Prepend([s.0], s.1, DecodeFuncTypes(bs[s.1..], count - 1, limits))
  }

  /** One function type read by the loop, the others still to come. */
  lemma {:induction false} FuncTypesStep(bs: seq<u8>, n: nat, after: seq<u8>, count: nat, count': nat,
                                         limits: ImplementationLimits, s: Signature)
    requires count > 0 && count' == count - 1 && n <= |bs| && bs[n..] == after
    requires DecodeFuncType(bs, limits) == Ok((s, n))
    ensures DecodeFuncTypes(bs, count, limits) == Prepend([s], n, DecodeFuncTypes(after, count', limits))
  {
    assert DecodeFuncTypes(bs, count, limits) == FuncTypesAfter(bs, count, limits, Ok((s, n)));
  }

  /** A first function type that fails fails the loop. */
  lemma {:induction false} FuncTypesStepErr(bs: seq<u8>, count: nat, limits: ImplementationLimits, c: ErrorCode)
    requires count > 0 && DecodeFuncType(bs, limits) == Err(c)
    ensures DecodeFuncTypes(bs, count, limits) == Err(c)
  {
    assert DecodeFuncTypes(bs, count, limits) == FuncTypesAfter(bs, count, limits, Err(c));
  }

  /** The type section: a count of at most `limits.numTypes`, then the function types. */
  function DecodeTypeSection(bs: seq<u8>, limits: ImplementationLimits): (r: Result<(seq<Signature>, nat)>)
    ensures r.Ok? ==> |r.value.0| <= limits.numTypes as nat && 1 <= r.value.1 <= |bs|
  {
    match Leb(bs)
    case Err(c) => Err(c)
    case Ok(count) =>
      if count.0 > limits.numTypes then Err(TooManyTypes)
      else Shift(count.1, DecodeFuncTypes(bs[count.1..], count.0 as nat, limits))
  }

  /** Every function type the loop accepts keeps to the limits on parameters and results. */
  lemma {:induction false} FuncTypesWithinLimits(bs: seq<u8>, count: nat, limits: ImplementationLimits)
    requires DecodeFuncTypes(bs, count, limits).Ok?
    ensures var sigs := DecodeFuncTypes(bs, count, limits).value.0;
      forall k :: 0 <= k < |sigs| ==> WithinLimits(sigs[k], limits)
    decreases count
  {
    if count > 0 {
      if DecodeFuncType(bs, limits).Err? {
        assert false;
      }
      var first := DecodeFuncType(bs, limits).value;
      FuncTypesStep(bs, first.1, bs[first.1..], count, count - 1, limits, first.0);
      FuncTypesWithinLimits(bs[first.1..], count - 1, limits);
      PrependWithinLimits(limits, first.0, first.1, DecodeFuncTypes(bs[first.1..], count - 1, limits));
    }
  }

  lemma {:induction false} PrependWithinLimits(limits: ImplementationLimits, s: Signature, n: nat,
                                               r: Result<(seq<Signature>, nat)>)
    requires WithinLimits(s, limits) && r.Ok?
    requires forall k :: 0 <= k < |r.value.0| ==> WithinLimits(r.value.0[k], limits)
    ensures var sigs := Prepend([s], n, r).value.0;
      forall k :: 0 <= k < |sigs| ==> WithinLimits(sigs[k], limits)
  {
    var sigs := Prepend([s], n, r).value.0;
    assert sigs == [s] + r.value.0;
    assert forall k :: 1 <= k < |sigs| ==> sigs[k] == r.value.0[k - 1];
  }

  /**
    A type section the frontend accepts declares at most `limits.numTypes`
    types, each within the limits on parameters and results.
  */
  lemma {:induction false} TypeSectionWithinLimits(bs: seq<u8>, limits: ImplementationLimits)
    requires DecodeTypeSection(bs, limits).Ok?
    ensures var sigs := DecodeTypeSection(bs, limits).value.0;
      && |sigs| <= limits.numTypes as nat
      && forall k :: 0 <= k < |sigs| ==> WithinLimits(sigs[k], limits)
  {
    var count := Leb(bs).value;
    FuncTypesWithinLimits(bs[count.1..], count.0 as nat, limits);
  }

  /** The first limit some signature breaks, in order. */
  function FirstLimitError(sigs: seq<Signature>, limits: ImplementationLimits): (r: Option<ErrorCode>)
    ensures r.None? <==> forall k :: 0 <= k < |sigs| ==> WithinLimits(sigs[k], limits)
  {
    if sigs == [] then None
    else if LimitError(sigs[0], limits).Some? then LimitError(sigs[0], limits)
    else
      var r := FirstLimitError(sigs[1..], limits);
      assert forall k :: 1 <= k < |sigs| ==> sigs[k] == sigs[1..][k - 1];
      r
  }

  predicate SignaturesFit(sigs: seq<Signature>) {
    forall k :: 0 <= k < |sigs| ==> SignatureFits(sigs[k])
  }

  function FuncTypesBytes(sigs: seq<Signature>): seq<u8>
    requires SignaturesFit(sigs)
  {
    if sigs == [] then [] else FuncTypeBytes(sigs[0]) + FuncTypesBytes(sigs[1..])
  }

  function TypeSectionBytes(sigs: seq<Signature>): seq<u8>
    requires |sigs| < TWO32 && SignaturesFit(sigs)
  {
    ULeb(|sigs|) + FuncTypesBytes(sigs)
  }

  /** The bytes of a first function type, then those of the others. */
  lemma {:induction false} FuncTypesBytesCons(sigs: seq<Signature>, rest: seq<u8>)
    requires SignaturesFit(sigs) && sigs != []
    ensures |FuncTypesBytes(sigs)| == |FuncTypeBytes(sigs[0])| + |FuncTypesBytes(sigs[1..])|
    ensures FuncTypesBytes(sigs) + rest == FuncTypeBytes(sigs[0]) + (FuncTypesBytes(sigs[1..]) + rest)
  {
  }

  /** The first limit broken is that of the first signature, or else one of the others. */
  lemma {:induction false} FirstLimitErrorCons(sigs: seq<Signature>, limits: ImplementationLimits)
    requires sigs != []
    ensures FirstLimitError(sigs, limits) ==
      if LimitError(sigs[0], limits).Some? then LimitError(sigs[0], limits) else FirstLimitError(sigs[1..], limits)
  {
  }

  /** The first function type read back, then the others still to read. */
  lemma {:induction false} FuncTypesCons(sigs: seq<Signature>, rest: seq<u8>, limits: ImplementationLimits)
    requires SignaturesFit(sigs) && sigs != []
    ensures DecodeFuncTypes(FuncTypesBytes(sigs) + rest, |sigs|, limits) ==
      if LimitError(sigs[0], limits).Some? then Err(LimitError(sigs[0], limits).value)
      else Prepend([sigs[0]], |FuncTypeBytes(sigs[0])|, DecodeFuncTypes(FuncTypesBytes(sigs[1..]) + rest, |sigs| - 1, limits))
  {
    var s, others := sigs[0], sigs[1..];
    var tail := FuncTypesBytes(others) + rest;
    var bs := FuncTypesBytes(sigs) + rest;
    FuncTypesBytesCons(sigs, rest);
    FuncTypeRoundTrip(s, tail, limits);
    if LimitError(s, limits).Some? {
      FuncTypesStepErr(bs, |sigs|, limits, LimitError(s, limits).value);
    } else {
      var n := |FuncTypeBytes(s)|;
      assert bs[n..] == tail;
      FuncTypesStep(bs, n, tail, |sigs|, |others|, limits, s);
    }
  }

  /** Function types read back: all of them when they keep to the limits, else the first limit broken. */
  lemma {:induction false} FuncTypesRoundTrip(sigs: seq<Signature>, rest: seq<u8>, limits: ImplementationLimits)
    requires SignaturesFit(sigs)
    ensures DecodeFuncTypes(FuncTypesBytes(sigs) + rest, |sigs|, limits) ==
      if FirstLimitError(sigs, limits).Some? then Err(FirstLimitError(sigs, limits).value)
      else Ok((sigs, |FuncTypesBytes(sigs)|))
  {
    if sigs != [] {
      var s, others := sigs[0], sigs[1..];
      FuncTypesCons(sigs, rest, limits);
      FirstLimitErrorCons(sigs, limits);
      if LimitError(s, limits).None? {
        FuncTypesRoundTrip(others, rest, limits);
        FuncTypesBytesCons(sigs, rest);
        PrependOutcome(s, |FuncTypeBytes(s)|, DecodeFuncTypes(FuncTypesBytes(others) + rest, |others|, limits),
                       FirstLimitError(others, limits), others, |FuncTypesBytes(others)|, sigs, |FuncTypesBytes(sigs)|);
      }
    }
  }

  /** One item in front of what the rest of a loop yields: an error of the rest, or all the items. */
  lemma {:induction false} PrependOutcome<T>(x: T, n: nat, inner: Result<(seq<T>, nat)>, e: Option<ErrorCode>,
                                             xs: seq<T>, m: nat, all: seq<T>, total: nat)
    requires inner == if e.Some? then Err(e.value) else Ok((xs, m))
    requires all == [x] + xs && total == n + m
    ensures Prepend([x], n, inner) == if e.Some? then Err(e.value) else Ok((all, total))
  {
  }

  /**
    The type section read back: its signatures, or the error of the first
    implementation limit the section breaks.
  */
  lemma {:induction false} TypeSectionRoundTrip(sigs: seq<Signature>, rest: seq<u8>, limits: ImplementationLimits)
    requires |sigs| < TWO32 && SignaturesFit(sigs)
    ensures DecodeTypeSection(TypeSectionBytes(sigs) + rest, limits) ==
      if |sigs| > limits.numTypes as nat then Err(TooManyTypes)
      else if FirstLimitError(sigs, limits).Some? then Err(FirstLimitError(sigs, limits).value)
      else Ok((sigs, |TypeSectionBytes(sigs)|))
  {
    var bs := TypeSectionBytes(sigs) + rest;
    var tail := FuncTypesBytes(sigs) + rest;
    assert bs == ULeb(|sigs|) + tail;
    LebRoundTrip(|sigs|, tail);
    if |sigs| <= limits.numTypes as nat {
      var n := |ULeb(|sigs|)|;
      assert bs[n..] == tail;
      TypeSectionStep(bs, n, tail, |sigs|, limits);
      FuncTypesRoundTrip(sigs, rest, limits);
    }
  }

  // ---------------------------------------------------------------------
  // The type table
  // ---------------------------------------------------------------------

  /** The first index below `bound` that holds `x`, or `bound` when there is none. */
  function FirstIndex(sigs: seq<Signature>, x: Signature, bound: nat): (r: nat)
    requires bound <= |sigs|
    ensures r <= bound && (r < bound ==> sigs[r] == x)
    ensures forall k :: 0 <= k < r ==> sigs[k] != x
    decreases bound
  {
    if bound == 0 then 0
    else
      var f := FirstIndex(sigs, x, bound - 1);
      if f < bound - 1 then f
      else if sigs[bound - 1] == x then bound - 1
      else bound
  }

  /** Any index with the properties of the first index below `bound` is it. */
  lemma {:induction false} FirstIndexIs(sigs: seq<Signature>, x: Signature, bound: nat, r: nat)
    requires bound <= |sigs| && r <= bound && (r < bound ==> sigs[r] == x)
    requires forall k :: 0 <= k < r ==> sigs[k] != x
    ensures FirstIndex(sigs, x, bound) == r
  {
  }

  /** Entry `i` of the table: FORWARD to the first equal signature before it, if any. */
  function TypeEntryAt(sigs: seq<Signature>, i: nat): (e: TypeEntry)
    requires i < |sigs| <= TWO32
  {
    var f := FirstIndex(sigs, sigs[i], i);
    if f < i then Forward(f) else Written(sigs[i])
  }

  /** The entries for the declared signatures. */
  function TypeEntries(sigs: seq<Signature>): (es: seq<TypeEntry>)
    requires |sigs| <= TWO32
    ensures |es| == |sigs|
  {
    seq(|sigs|, k requires 0 <= k < |sigs| => TypeEntryAt(sigs, k))
  }

  /** The signatures of the block types `() => ()` and `() => t`, in the order written. */
  const BlockTypes: seq<TypeEntry> := [
    Written(Signature([], [])), Written(Signature([], [I32])), Written(Signature([], [I64])),
    Written(Signature([], [F32])), Written(Signature([], [F64]))
  ]

  /** The whole type table: the declared signatures, then the five block types. */
  function TypeTable(sigs: seq<Signature>): (es: seq<TypeEntry>)
    requires |sigs| <= TWO32
    ensures |es| == |sigs| + 5
  {
    TypeEntries(sigs) + BlockTypes
  }

  /**
    An entry is written out exactly when its signature occurs first there,
    and FORWARD always names an earlier written entry with the same
    signature.
  */
  lemma {:induction false} EntryMeaning(sigs: seq<Signature>, i: nat)
    requires i < |sigs| <= TWO32
    ensures TypeEntryAt(sigs, i).Written? <==> forall k :: 0 <= k < i ==> sigs[k] != sigs[i]
    ensures TypeEntryAt(sigs, i).Written? ==> TypeEntryAt(sigs, i).sig == sigs[i]
    ensures TypeEntryAt(sigs, i).Forward? ==>
      var t := TypeEntryAt(sigs, i).target as nat;
      t < i && sigs[t] == sigs[i] && TypeEntryAt(sigs, t) == Written(sigs[i])
  {
    var f := FirstIndex(sigs, sigs[i], i);
    if f < i {
      assert sigs[f] == sigs[i];
      FirstIndexIs(sigs, sigs[i], f, f);
    }
  }

  /** Appending a signature leaves the entries before it as they were. */
  lemma {:induction false} EntriesAppend(sigs: seq<Signature>, x: Signature)
    requires |sigs| < TWO32
    ensures TypeEntries(sigs + [x]) == TypeEntries(sigs) + [TypeEntryAt(sigs + [x], |sigs|)]
  {
    var all := sigs + [x];
    forall k | 0 <= k < |sigs|
      ensures TypeEntryAt(all, k) == TypeEntryAt(sigs, k)
    {
      var f := FirstIndex(sigs, sigs[k], k);
      assert all[k] == sigs[k];
      FirstIndexIs(all, sigs[k], k, f);
    }
    var es := TypeEntries(sigs) + [TypeEntryAt(all, |sigs|)];
    assert forall k :: 0 <= k < |all| ==> TypeEntries(all)[k] == es[k];
  }

  /**
    `reduceTypeIndex`: an index past the declared types throws; an entry that
    forwards gives the index it forwards to; any other gives itself.
  */
  function ReduceTypeIndex(types: seq<TypeEntry>, numTypes: u32, typeIndex: u32): (r: Result<u32>)
    requires numTypes as nat <= |types|
    ensures r.Err? ==> r.code == FunctionTypeOutOfBounds
  {
    if typeIndex >= numTypes then Err(FunctionTypeOutOfBounds)
    else
      match types[typeIndex]
      case Forward(target) => Ok(target)
      case Written(_) => Ok(typeIndex)
  }

  /**
    On the table the type section builds, an index reduces to the first index
    declaring the same signature; an index past the declared types throws.
  */
  lemma {:induction false} ReduceToFirst(sigs: seq<Signature>, typeIndex: u32)
    requires |sigs| < TWO32
    ensures typeIndex as nat < |sigs| ==>
      ReduceTypeIndex(TypeTable(sigs), |sigs|, typeIndex) == Ok(FirstIndex(sigs, sigs[typeIndex], |sigs|))
    ensures typeIndex as nat >= |sigs| ==>
      ReduceTypeIndex(TypeTable(sigs), |sigs|, typeIndex) == Err(FunctionTypeOutOfBounds)
  {
    if typeIndex as nat < |sigs| {
      var i := typeIndex as nat;
      var f := FirstIndex(sigs, sigs[i], i);
      assert TypeTable(sigs)[i] == TypeEntryAt(sigs, i);
      FirstIndexIs(sigs, sigs[i], |sigs|, f);
    }
  }

  /**
    Two declared type indices reduce to the same index exactly when they
    declare the same signature: the property indirect calls rely on.
  */
  lemma {:induction false} ReduceSameSignature(sigs: seq<Signature>, a: u32, b: u32)
    requires |sigs| < TWO32 && a as nat < |sigs| && b as nat < |sigs|
    ensures ReduceTypeIndex(TypeTable(sigs), |sigs|, a) == ReduceTypeIndex(TypeTable(sigs), |sigs|, b)
            <==> sigs[a] == sigs[b]
  {
    ReduceToFirst(sigs, a);
    ReduceToFirst(sigs, b);
  }

  /** Reducing twice is reducing once; the reduced index holds a written-out signature. */
  lemma {:induction false} ReduceIdempotent(sigs: seq<Signature>, typeIndex: u32)
    requires |sigs| < TWO32 && typeIndex as nat < |sigs|
    ensures var r := ReduceTypeIndex(TypeTable(sigs), |sigs|, typeIndex).value;
      && r <= typeIndex
      && ReduceTypeIndex(TypeTable(sigs), |sigs|, r) == Ok(r)
      && TypeTable(sigs)[r] == Written(sigs[typeIndex])
  {
    ReduceToFirst(sigs, typeIndex);
    var r := FirstIndex(sigs, sigs[typeIndex], |sigs|);
    FirstIndexIs(sigs, sigs[typeIndex], typeIndex as nat, r);
    FirstIndexIs(sigs, sigs[typeIndex], r, r);
    ReduceToFirst(sigs, r as u32);
    assert TypeTable(sigs)[r] == TypeEntryAt(sigs, r);
  }

  /**
    `getSigIndexForBlock`: the index of the signature of a block with no
    result or with one result of the given type.
  */
  function BlockSignatureIndex(numTypes: u32, result: Option<ValueType>): (r: u32) {
    match result
    case None => numTypes
    case Some(I32) => Wrap32(numTypes as int + 1)
    case Some(I64) => Wrap32(numTypes as int + 2)
    case Some(F32) => Wrap32(numTypes as int + 3)
    case Some(F64) => Wrap32(numTypes as int + 4)
  }

  /** The block signature index names the signature `() => result` of the table. */
  lemma {:induction false} BlockSignatureAt(sigs: seq<Signature>, result: Option<ValueType>)
    requires |sigs| + 5 <= TWO32
    ensures var i := BlockSignatureIndex(|sigs|, result) as nat;
      i < |TypeTable(sigs)|
      && TypeTable(sigs)[i] == Written(Signature([], if result.None? then [] else [result.value]))
  {
    var i := BlockSignatureIndex(|sigs|, result) as nat;
    assert |sigs| <= i < |sigs| + 5;
    assert TypeTable(sigs)[i] == BlockTypes[i - |sigs|];
  }

  // ---------------------------------------------------------------------
  // Parsing
  // ---------------------------------------------------------------------

  /** A read that starts `mid - before` bytes after `before`, seen from `before`. */
  lemma {:induction false} ParsedShift<T>(r: Result<T>, spec: Result<(T, nat)>, before: nat, mid: nat, after: nat)
    requires Parsed(r, spec, mid, after) && before <= mid
    ensures Parsed(r, Shift(mid - before, spec), before, after)
  {
  }

  /** Nothing read before: the loop yields what the rest of its reads yield. */
  lemma {:induction false} PrependNothing<T>(r: Result<(seq<T>, nat)>)
    ensures Prepend([], 0, r) == r
  {
    match r
    case Err(_) =>
    case Ok(p) =>
      assert [] + p.0 == p.0;
  }

  /** Two reads in a row: what the first yields, prepended to what the second yields. */
  lemma {:induction false} PrependTwice<T>(done: seq<T>, used: nat, more: seq<T>, n: nat, r: Result<(seq<T>, nat)>)
    ensures Prepend(done, used, Prepend(more, n, r)) == Prepend(done + more, used + n, r)
  {
    match r
    case Err(_) =>
    case Ok(p) =>
      assert done + (more + p.0) == (done + more) + p.0;
  }

  /** A loop that has read `done` and reads one more item `x`. */
  lemma {:induction false} PrependAdvance<T>(whole: Result<(seq<T>, nat)>, done: seq<T>, used: nat,
                                             r: Result<(seq<T>, nat)>, x: T, n: nat, r': Result<(seq<T>, nat)>,
                                             used': nat)
    requires whole == Prepend(done, used, r) && r == Prepend([x], n, r') && used' == used + n
    ensures whole == Prepend(done + [x], used', r')
  {
    PrependTwice(done, used, [x], n, r');
  }

  /**
    The loop over value types has read `done` over `used` bytes, and `count`
    value types at `bs` are still to come.
  */
  ghost predicate ValueTypesLeft(whole: Result<(seq<ValueType>, nat)>, done: seq<ValueType>, used: nat, bs: seq<u8>,
                                 count: nat, invalid: ErrorCode) {
    whole == Prepend(done, used, DecodeValueTypes(bs, count, invalid))
  }

  /** One more value type read by the loop over them. */
  lemma {:induction false} ValueTypesAdvance(whole: Result<(seq<ValueType>, nat)>, done: seq<ValueType>, used: nat,
                                             bs: seq<u8>, after: seq<u8>, count: nat, invalid: ErrorCode, t: ValueType,
                                             used': nat, count': nat)
    requires ValueTypesLeft(whole, done, used, bs, count, invalid)
    requires count > 0 && bs != [] && DecodeValueType(bs[0]) == Some(t) && bs[1..] == after
    requires used' == used + 1 && count' == count - 1
    ensures ValueTypesLeft(whole, done + [t], used', after, count', invalid)
  {
    assert DecodeValueTypes(bs, count, invalid) == Prepend([t], 1, DecodeValueTypes(after, count', invalid));
    PrependAdvance(whole, done, used, DecodeValueTypes(bs, count, invalid), t, 1, DecodeValueTypes(after, count', invalid), used');
  }

  /** A byte that is missing or not a value type fails the loop over them. */
  lemma {:induction false} ValueTypesFail(whole: Result<(seq<ValueType>, nat)>, done: seq<ValueType>, used: nat,
                                          bs: seq<u8>, count: nat, invalid: ErrorCode, c: ErrorCode)
    requires ValueTypesLeft(whole, done, used, bs, count, invalid) && count > 0
    requires (bs == [] && c == ReadPastEnd) || (bs != [] && DecodeValueType(bs[0]).None? && c == invalid)
    ensures whole == Err(c)
  {
  }

  /** The loop over `n` value types. */
  method ParseValueTypes(br: BytecodeReader, n: u32, invalid: ErrorCode) returns (r: Result<seq<ValueType>>)
    requires br.Valid()
    modifies br
    ensures br.Valid()
    ensures Parsed(r, DecodeValueTypes(br.bytes[old(br.offset)..], n as nat, invalid), old(br.offset), br.offset)
  {
    ghost var bytes := br.bytes;
    ghost var k0 := br.offset;
    ghost var whole := DecodeValueTypes(bytes[k0..], n as nat, invalid);
    PrependNothing(whole);
    ghost var used: nat := 0;
    ghost var left: nat := n as nat;
    ghost var rest := bytes[k0..];
    var types: seq<ValueType> := [];
    var j: u32 := 0;
    while j < n
      invariant br.Valid() && br.bytes == bytes && br.offset == k0 + used && used == j as nat && j <= n
      invariant |types| == used && left == (n - j) as nat && rest == bytes[br.offset..]
      invariant ValueTypesLeft(whole, types, used, rest, left, invalid)
    {
      var b := br.ReadByte();
      if b.Err? {
        ValueTypesFail(whole, types, used, rest, left, invalid, ReadPastEnd);
        return Err(b.code);
      }
      var t := DecodeValueType(b.value);
      if t.None? {
        ValueTypesFail(whole, types, used, rest, left, invalid, invalid);
        return Err(invalid);
      }
      ghost var after := bytes[br.offset..];
      assert rest[1..] == after;
      ghost var used' := used + 1;
      ghost var left' := left - 1;
      ValueTypesAdvance(whole, types, used, rest, after, left, invalid, t.value, used', left');
      types := types + [t.value];
      used := used';
      left := left';
      rest := after;
      j := j + 1;
    }
    assert types + [] == types;
    return Ok(types);
  }

  /** The count of a type vector read and checked: the types follow. */
  lemma {:induction false} VectorStep(bs: seq<u8>, n: nat, after: seq<u8>, count: u32, limit: u32, tooMany: ErrorCode,
                                      invalid: ErrorCode)
    requires Leb(bs) == Ok((count, n)) && n <= |bs| && bs[n..] == after && count <= limit
    ensures DecodeTypeVector(bs, limit, tooMany, invalid) == Shift(n, DecodeValueTypes(after, count as nat, invalid))
  {
  }

  /** A count of at most `limit` value types, then the types. */
  method ParseTypeVector(br: BytecodeReader, limit: u32, tooMany: ErrorCode, invalid: ErrorCode)
    returns (r: Result<seq<ValueType>>)
    requires br.Valid()
    modifies br
    ensures br.Valid()
    ensures Parsed(r, DecodeTypeVector(br.bytes[old(br.offset)..], limit, tooMany, invalid), old(br.offset), br.offset)
  {
    ghost var bs := br.bytes[br.offset..];
    ghost var k0 := br.offset;
    var count := br.ReadLEB128U32();
    if count.Err? {
      ParsedErr(count, Leb(bs), k0, br.offset);
      return Err(count.code);
    }
    ghost var k1 := br.offset;
    ParsedOk(count, Leb(bs), k0, k1, count.value, k1 - k0);
    if count.value > limit {
      return Err(tooMany);
    }
    assert bs[k1 - k0..] == br.bytes[k1..];
    VectorStep(bs, k1 - k0, br.bytes[k1..], count.value, limit, tooMany, invalid);
    ghost var spec := DecodeValueTypes(br.bytes[k1..], count.value as nat, invalid);
    r := ParseValueTypes(br, count.value, invalid);
    ParsedShift(r, spec, k0, k1, br.offset);
  }

  /** The parameter types read: the result types follow. */
  lemma {:induction false} SignatureStep(bs: seq<u8>, n: nat, after: seq<u8>, params: seq<ValueType>,
                                         limits: ImplementationLimits)
    requires DecodeTypeVector(bs, limits.numParams, TooManyParams, InvalidParamType) == Ok((params, n))
    requires n <= |bs| && bs[n..] == after
    ensures DecodeSignature(bs, limits) ==
      match DecodeTypeVector(after, limits.numResults, TooManyResults, InvalidReturnType)
      case Err(c) => Err(c)
      case Ok(res) => Ok((Signature(params, res.0), n + res.1))
  {
  }

  /** The parameter types, then the result types, of a function type. */
  method ParseSignature(br: BytecodeReader, limits: ImplementationLimits) returns (r: Result<Signature>)
    requires br.Valid()
    modifies br
    ensures br.Valid()
    ensures Parsed(r, DecodeSignature(br.bytes[old(br.offset)..], limits), old(br.offset), br.offset)
  {
    ghost var bs := br.bytes[br.offset..];
    ghost var k0 := br.offset;
    ghost var spec1 := DecodeTypeVector(bs, limits.numParams, TooManyParams, InvalidParamType);
    var params := ParseTypeVector(br, limits.numParams, TooManyParams, InvalidParamType);
    if params.Err? {
      ParsedErr(params, spec1, k0, br.offset);
      return Err(params.code);
    }
    ghost var k1 := br.offset;
    ghost var n := k1 - k0;
    ParsedOk(params, spec1, k0, k1, params.value, n);
    assert bs[n..] == br.bytes[k1..];
    SignatureStep(bs, n, br.bytes[k1..], params.value, limits);
    ghost var spec2 := DecodeTypeVector(br.bytes[k1..], limits.numResults, TooManyResults, InvalidReturnType);
    var results := ParseTypeVector(br, limits.numResults, TooManyResults, InvalidReturnType);
    if results.Err? {
      ParsedErr(results, spec2, k1, br.offset);
      return Err(results.code);
    }
    ParsedOk(results, spec2, k1, br.offset, results.value, br.offset - k1);
    return Ok(Signature(params.value, results.value));
  }

  /** One function type: the form byte 0x60, then the signature. */
  method ParseFuncType(br: BytecodeReader, limits: ImplementationLimits) returns (r: Result<Signature>)
    requires br.Valid()
    modifies br
    ensures br.Valid()
    ensures Parsed(r, DecodeFuncType(br.bytes[old(br.offset)..], limits), old(br.offset), br.offset)
  {
    ghost var bs := br.bytes[br.offset..];
    ghost var k0 := br.offset;
    var typeType :- br.ReadByte();
    if typeType != FUNC_TYPE_FORM {
      return Err(WrongTypeForm);
    }
    assert bs[1..] == br.bytes[br.offset..];
    ghost var k1 := br.offset;
    ghost var spec := DecodeSignature(br.bytes[k1..], limits);
    r := ParseSignature(br, limits);
    ParsedShift(r, spec, k0, k1, br.offset);
  }

  /**
    The search for an earlier, equal signature: the entry to record for the
    signature `sig` read after the signatures `sigs`.
  */
  method ForwardOrWrite(types: seq<TypeEntry>, ghost sigs: seq<Signature>, sig: Signature) returns (e: TypeEntry)
    requires |sigs| < TWO32 && types == TypeEntries(sigs)
    ensures e == TypeEntryAt(sigs + [sig], |sigs|)
  {
    var i := |types|;
    var j := 0;
    while j < i
      invariant j <= i && forall k :: 0 <= k < j ==> sigs[k] != sig
    {
      EntryMeaning(sigs, j);
      if types[j] == Written(sig) {
        FirstIndexIs(sigs + [sig], sig, i, j);
        return Forward(j);
      }
      j := j + 1;
    }
    FirstIndexIs(sigs + [sig], sig, i, i);
    return Written(sig);
  }

  /**
    The loop over function types has read `done` over `used` bytes, and
    `count` function types at `bs` are still to come.
  */
  ghost predicate FuncTypesLeft(whole: Result<(seq<Signature>, nat)>, done: seq<Signature>, used: nat, bs: seq<u8>,
                                count: nat, limits: ImplementationLimits) {
    whole == Prepend(done, used, DecodeFuncTypes(bs, count, limits))
  }

  /** One more function type read by the loop over them. */
  lemma {:induction false} FuncTypesAdvance(whole: Result<(seq<Signature>, nat)>, done: seq<Signature>, used: nat,
                                            bs: seq<u8>, n: nat, after: seq<u8>, count: nat,
                                            limits: ImplementationLimits, s: Signature, used': nat, count': nat)
    requires FuncTypesLeft(whole, done, used, bs, count, limits)
    requires count > 0 && n <= |bs| && bs[n..] == after && DecodeFuncType(bs, limits) == Ok((s, n))
    requires used' == used + n && count' == count - 1
    ensures FuncTypesLeft(whole, done + [s], used', after, count', limits)
  {
    FuncTypesStep(bs, n, after, count, count', limits, s);
    PrependAdvance(whole, done, used, DecodeFuncTypes(bs, count, limits), s, n, DecodeFuncTypes(after, count', limits), used');
  }

  /** A function type that fails fails the loop over them. */
  lemma {:induction false} FuncTypesFail(whole: Result<(seq<Signature>, nat)>, done: seq<Signature>, used: nat,
                                         bs: seq<u8>, count: nat, limits: ImplementationLimits, c: ErrorCode)
    requires FuncTypesLeft(whole, done, used, bs, count, limits)
    requires count > 0 && DecodeFuncType(bs, limits) == Err(c)
    ensures whole == Err(c)
  {
    FuncTypesStepErr(bs, count, limits, c);
  }

  /** The loop over the `count` function types: their table entries. */
  method ParseFuncTypes(br: BytecodeReader, count: u32, limits: ImplementationLimits) returns (r: Result<seq<TypeEntry>>)
    requires br.Valid()
    modifies br
    ensures br.Valid()
    ensures var spec := DecodeFuncTypes(br.bytes[old(br.offset)..], count as nat, limits);
      && (spec.Err? ==> r == Err(spec.code))
      && (spec.Ok? ==> r == Ok(TypeEntries(spec.value.0)) && br.offset == old(br.offset) + spec.value.1)
  {
    ghost var bytes := br.bytes;
    ghost var k0 := br.offset;
    ghost var whole := DecodeFuncTypes(bytes[k0..], count as nat, limits);
    PrependNothing(whole);
    ghost var sigs: seq<Signature> := [];
    ghost var used: nat := 0;
    ghost var left: nat := count as nat;
    ghost var rest := bytes[k0..];
    var types: seq<TypeEntry> := [];
    var i: u32 := 0;
    while i < count
      invariant br.Valid() && br.bytes == bytes && used == br.offset - k0 && i <= count && |sigs| == i as nat
      invariant left == (count - i) as nat && rest == bytes[br.offset..]
      invariant types == TypeEntries(sigs)
      invariant FuncTypesLeft(whole, sigs, used, rest, left, limits)
    {
      ghost var k := br.offset;
      ghost var spec := DecodeFuncType(rest, limits);
      var sig := ParseFuncType(br, limits);
      if sig.Err? {
        ParsedErr(sig, spec, k, br.offset);
        FuncTypesFail(whole, sigs, used, rest, left, limits, sig.code);
        return Err(sig.code);
      }
      ghost var n: nat := br.offset - k;
      ParsedOk(sig, spec, k, br.offset, sig.value, n);
      ghost var after := bytes[br.offset..];
      assert rest[n..] == after;
      ghost var used' := used + n;
      ghost var left' := left - 1;
      FuncTypesAdvance(whole, sigs, used, rest, n, after, left, limits, sig.value, used', left');
      var e := ForwardOrWrite(types, sigs, sig.value);
      EntriesAppend(sigs, sig.value);
      types := types + [e];
      sigs := sigs + [sig.value];
      used := used';
      left := left';
      rest := after;
      i := i + 1;
    }
    assert sigs + [] == sigs;
    return Ok(types);
  }

  /** The count of the type section read and checked: the function types follow. */
  lemma {:induction false} TypeSectionStep(bs: seq<u8>, n: nat, after: seq<u8>, count: u32, limits: ImplementationLimits)
    requires Leb(bs) == Ok((count, n)) && n <= |bs| && bs[n..] == after && count <= limits.numTypes
    ensures DecodeTypeSection(bs, limits) == Shift(n, DecodeFuncTypes(after, count as nat, limits))
  {
  }

  /**
    `parseTypeSection`: records the number of types (before checking it
    against the limit), then the table of signatures with equal signatures
    forwarded to the first, then the five block signatures.
  */
  method ParseTypeSection(br: BytecodeReader, info: ModuleInfo, limits: ImplementationLimits) returns (r: Result<()>)
    requires br.Valid()
    modifies br, info
    ensures br.Valid() && SameMemory(info) && SameFunctions(info)
    ensures info.numDataSegments == old(info.numDataSegments)
    ensures var count := Leb(br.bytes[old(br.offset)..]);
      count.Ok? ==> info.numTypes == count.value.0
    ensures var spec := DecodeTypeSection(br.bytes[old(br.offset)..], limits);
      && (spec.Err? ==> r == Err(spec.code))
      && (spec.Ok? ==>
            r == Ok(()) && br.offset == old(br.offset) + spec.value.1
              && info.numTypes as nat == |spec.value.0| && info.types == TypeTable(spec.value.0))
  {
    ghost var bs := br.bytes[br.offset..];
    ghost var k0 := br.offset;
    var count := br.ReadLEB128U32();
    if count.Err? {
      ParsedErr(count, Leb(bs), k0, br.offset);
      return Err(count.code);
    }
    ghost var k1 := br.offset;
    ghost var n := k1 - k0;
    ParsedOk(count, Leb(bs), k0, k1, count.value, n);
    info.numTypes := count.value;
    if info.numTypes > limits.numTypes {
      return Err(TooManyTypes);
    }
    assert bs[n..] == br.bytes[k1..];
    TypeSectionStep(bs, n, br.bytes[k1..], count.value, limits);
    var types :- ParseFuncTypes(br, count.value, limits);
    info.types := types + BlockTypes;
    return Ok(());
  }
}
