/**
  The spec-test driver's own logic (`tests/SingleCaseTest.cpp`): the
  tally of test counts, the check of a floating-point result against an
  expected NaN pattern, the trap texts of the WebAssembly test suite and
  the trap codes that count as the same expected trap.
*/
module SingleCaseTests {
  import opened UInt
  import D = DwarfBytes
  import R = Runtimes

  // ---------------------------------------------------------------------
  // Test counts (`TestResult`)
  // ---------------------------------------------------------------------

  /** The three counts of a `TestResult`. */
  datatype Counts = Counts(executed: nat, failed: nat, total: nat)

  /** A tally makes sense: no more failures than executed tests, no more executed tests than tests. */
  predicate Consistent(c: Counts) {
    c.failed <= c.executed <= c.total
  }

  /** The counts of two tallies added field by field. */
  function Sum(a: Counts, b: Counts): (s: Counts)
    ensures Consistent(a) && Consistent(b) ==> Consistent(s)
    ensures s.executed - s.failed == (a.executed - a.failed) + (b.executed - b.failed)
  {
    Counts(a.executed + b.executed, a.failed + b.failed, a.total + b.total)
  }

  /** Adding tallies does not depend on grouping or order, and an empty tally adds nothing. */
  lemma {:induction false} SumMonoid(a: Counts, b: Counts, c: Counts)
    ensures Sum(Sum(a, b), c) == Sum(a, Sum(b, c))
    ensures Sum(a, b) == Sum(b, a)
    ensures Sum(a, Counts(0, 0, 0)) == a
  {
  }

  /** `TestResult`: the counts the driver accumulates over the test files. */
  class TestResult {
    var executedTests: nat
    var failedTests: nat
    var totalTests: nat

    constructor ()
      ensures Value() == Counts(0, 0, 0)
    {
      executedTests := 0;
      failedTests := 0;
      totalTests := 0;
    }

    function Value(): Counts
      reads this
    {
      Counts(executedTests, failedTests, totalTests)
    }

    /**
      `operator+=`: each count grows by the other tally's; a tally added
      to itself doubles, since each field is read before it is written.
    */
    method AddAssign(rh: TestResult)
      modifies this
      ensures Value() == Sum(old(Value()), old(rh.Value()))
      ensures old(Consistent(Value())) && old(Consistent(rh.Value())) ==> Consistent(Value())
    {
      ghost var sum := Sum(Value(), rh.Value());
      var executed, failed, total := rh.executedTests, rh.failedTests, rh.totalTests;
      executedTests := executedTests + executed;
      failedTests := failedTests + failed;
      totalTests := totalTests + total;
      assert Value() == sum;
    }
  }

  // ---------------------------------------------------------------------
  // Expected floating-point results
  // ---------------------------------------------------------------------

  /** The NaN forms a test may expect: `nan:canonical`, `nan:arithmetic`, or plain `nan`. */
  datatype NanPattern = Canonical | Arithmetic | AnyNan

  /** An expected result: exact bits, or a NaN form. */
  datatype Expected = Exact(bits: nat) | Nan(pattern: NanPattern)

  /** A binary floating-point format: 2^(fraction bits) and the all-ones exponent. */
  datatype FloatFormat = FloatFormat(fracSize: nat, expAllOnes: nat)

  const F32: FloatFormat := FloatFormat(0x80_0000, 0xFF)
  const F64: FloatFormat := FloatFormat(0x10_0000_0000_0000, 0x7FF)

  /** The fraction field of `raw`. */
  function Fraction(fmt: FloatFormat, raw: nat): nat
    requires fmt.fracSize > 0
  {
    raw % fmt.fracSize
  }

  /** The exponent field of `raw`. */
  function Exponent(fmt: FloatFormat, raw: nat): nat
    requires fmt.fracSize > 0
  {
    (raw / fmt.fracSize) % (fmt.expAllOnes + 1)
  }

  /** The most significant fraction bit, set in a quiet NaN. */
  function QuietBit(fmt: FloatFormat): nat {
    fmt.fracSize / 2
  }

  /**
    The NaN check of the driver: the exponent is all ones and the fraction
    is not zero; a canonical NaN has only the quiet bit in the fraction, an
    arithmetic NaN at least the quiet bit.
  */
  function NanMatches(fmt: FloatFormat, pattern: NanPattern, raw: nat): (ok: bool)
    requires fmt.fracSize > 0
    ensures ok ==> Exponent(fmt, raw) == fmt.expAllOnes && Fraction(fmt, raw) != 0
  {
    var exponent := Exponent(fmt, raw);
    var fraction := Fraction(fmt, raw);
    var correctNan := exponent == fmt.expAllOnes && fraction != 0;
    var correctNan := if pattern == Canonical && fraction != QuietBit(fmt) then false else correctNan;
    if pattern == Arithmetic && fraction < QuietBit(fmt) then false else correctNan
  }

  /** A result passes when its bits are the expected ones, or it is a NaN of the expected form. */
  function ResultPasses(fmt: FloatFormat, expected: Expected, raw: nat): (ok: bool)
    requires fmt.fracSize > 0
    ensures expected.Exact? ==> (ok <==> raw == expected.bits)
  {
    match expected
    case Exact(bits) => bits == raw
    case Nan(pattern) => NanMatches(fmt, pattern, raw)
  }

  /** Every canonical NaN is an arithmetic NaN, and every arithmetic NaN is a NaN. */
  lemma {:induction false} NanPatternsNested(fmt: FloatFormat, raw: nat)
    requires fmt.fracSize >= 2
    ensures NanMatches(fmt, Canonical, raw) ==> NanMatches(fmt, Arithmetic, raw)
    ensures NanMatches(fmt, Arithmetic, raw) ==> NanMatches(fmt, AnyNan, raw)
  {
  }

  /** The sign bit of a 32-bit float. */
  const F32_SIGN: nat := 0x8000_0000

  /** The f32 check ignores the sign: a value and its negation pass or fail together. */
  lemma {:induction false} F32NanIgnoresSign(pattern: NanPattern, raw: nat)
    requires raw < F32_SIGN
    ensures NanMatches(F32, pattern, raw) == NanMatches(F32, pattern, raw + F32_SIGN)
  {
    assert raw + F32_SIGN == raw + 0x100 * F32.fracSize;
    assert (raw + F32_SIGN) / F32.fracSize == raw / F32.fracSize + 0x100;
    assert (raw + F32_SIGN) % F32.fracSize == raw % F32.fracSize;
  }

  /** The f32 canonical NaNs are exactly 0x7FC00000 and 0xFFC00000. */
  lemma {:induction false} F32CanonicalNans(raw: u32)
    ensures NanMatches(F32, Canonical, raw) <==> raw == 0x7FC0_0000 || raw == 0xFFC0_0000
  {
    var f := raw % 0x80_0000;
    var q := raw / 0x80_0000;
    assert raw == q * 0x80_0000 + f;
    assert q < 0x200;
    if NanMatches(F32, Canonical, raw) {
      assert f == 0x40_0000 && q % 0x100 == 0xFF;
      assert q == 0xFF || q == 0x1FF;
    }
  }

  /** The f64 canonical NaNs are exactly 0x7FF8000000000000 and 0xFFF8000000000000. */
  lemma {:induction false} F64CanonicalNans(raw: u64)
    ensures NanMatches(F64, Canonical, raw) <==> raw == 0x7FF8_0000_0000_0000 || raw == 0xFFF8_0000_0000_0000
  {
    var f := raw % 0x10_0000_0000_0000;
    var q := raw / 0x10_0000_0000_0000;
    assert raw == q * 0x10_0000_0000_0000 + f;
    assert q < 0x1000;
    if NanMatches(F64, Canonical, raw) {
      assert f == 0x8_0000_0000_0000 && q % 0x800 == 0x7FF;
      assert q == 0x7FF || q == 0xFFF;
    }
  }

  /** An f32 value is an arithmetic NaN exactly when its exponent is all ones and its quiet bit (bit 22) is set. */
  lemma {:induction false} F32ArithmeticNanQuiet(raw: u32)
    ensures NanMatches(F32, Arithmetic, raw) <==> (raw / 0x80_0000) % 0x100 == 0xFF && (raw / 0x40_0000) % 2 == 1
  {
    var f := raw % 0x80_0000;
    var q := raw / 0x80_0000;
    assert raw == q * 0x80_0000 + f;
    assert raw / 0x40_0000 == 2 * q + f / 0x40_0000;
    assert (raw / 0x40_0000) % 2 == f / 0x40_0000;
  }

  // ---------------------------------------------------------------------
  // Traps
  // ---------------------------------------------------------------------

  /** `trapCodeMap`: the trap texts of the WebAssembly test suite and the trap codes they stand for. */
  const TRAP_TEXTS: seq<(string, R.TrapCode)> := [
    ("unreachable", R.UNREACHABLE),
    ("builtin trap", R.BUILTIN_TRAP),
    ("runtime interrupt request", R.RUNTIME_INTERRUPT_REQUESTED),
    ("out of bounds memory access", R.LINMEM_OUTOFBOUNDSACCESS),
    ("out of bounds linear memory access", R.LINMEM_OUTOFBOUNDSACCESS),
    ("out of bounds linked memory access", R.LINKEDMEMORY_OUTOFBOUNDS),
    ("indirect call type mismatch", R.INDIRECTCALL_WRONGSIG),
    ("undefined element", R.INDIRECTCALL_OUTOFBOUNDS),
    ("integer overflow", R.DIV_OVERFLOW),
    ("integer divide by zero", R.DIV_ZERO),
    ("invalid conversion to integer", R.TRUNC_OVERFLOW),
    ("unknown import", R.CALLED_FUNCTION_NOT_LINKED),
    ("called function not linked", R.CALLED_FUNCTION_NOT_LINKED),
    ("indirect call not linked", R.INDIRECTCALL_WRONGSIG)
  ]

  /** The code of the first row of `table` from `i` on whose text is `text`. */
  function Lookup(table: seq<(string, R.TrapCode)>, text: string, i: nat): (r: D.Option<R.TrapCode>)
    requires i <= |table|
    ensures r.None? <==> forall k :: i <= k < |table| ==> table[k].0 != text
    ensures r.Some? ==> exists k :: i <= k < |table| && table[k] == (text, r.value)
    decreases |table| - i
  {
    if i == |table| then D.None
    else if table[i].0 == text then D.Some(table[i].1)
    else Lookup(table, text, i + 1)
  }

  /**
    `getTrapCodeFromTrapText`: the code of a known trap text; an unknown
    text ends the driver, which is `None` here.
  */
  function GetTrapCodeFromTrapText(text: string): (r: D.Option<R.TrapCode>)
    ensures r.None? <==> forall k :: 0 <= k < |TRAP_TEXTS| ==> TRAP_TEXTS[k].0 != text
    ensures r.Some? ==> exists k :: 0 <= k < |TRAP_TEXTS| && TRAP_TEXTS[k] == (text, r.value)
  {
    Lookup(TRAP_TEXTS, text, 0)
  }

  /** In a table whose texts differ, the lookup of a row's text finds that row's code. */
  lemma {:induction false} LookupRow(table: seq<(string, R.TrapCode)>, i: nat, k: nat)
    requires i <= k < |table|
    requires forall a, b :: 0 <= a < b < |table| ==> table[a].0 != table[b].0
    ensures Lookup(table, table[k].0, i) == D.Some(table[k].1)
    decreases k - i
  {
    if i < k {
      assert table[i].0 != table[k].0;
      LookupRow(table, i + 1, k);
    }
  }

  /** Character `i` of `s`, or a space past its end. */
  function CharAt(s: string, i: nat): char {
    if i < |s| then s[i] else ' '
  }

  /** No two rows of the map share a text, as keys of a map cannot. */
  lemma {:induction false} TrapTextsDistinct()
    ensures forall a, b :: 0 <= a < b < |TRAP_TEXTS| ==> TRAP_TEXTS[a].0 != TRAP_TEXTS[b].0
  {
    forall a, b | 0 <= a < b < |TRAP_TEXTS|
      ensures TRAP_TEXTS[a].0 != TRAP_TEXTS[b].0
    {
      var s, t := TRAP_TEXTS[a].0, TRAP_TEXTS[b].0;
      assert |s| != |t| || CharAt(s, 0) != CharAt(t, 0) || CharAt(s, 17) != CharAt(t, 17);
    }
  }

  /** Every text of the map gives its code. */
  lemma {:induction false} TrapTextCodes()
    ensures forall k :: 0 <= k < |TRAP_TEXTS| ==> GetTrapCodeFromTrapText(TRAP_TEXTS[k].0) == D.Some(TRAP_TEXTS[k].1)
  {
    TrapTextsDistinct();
    forall k | 0 <= k < |TRAP_TEXTS|
      ensures GetTrapCodeFromTrapText(TRAP_TEXTS[k].0) == D.Some(TRAP_TEXTS[k].1)
    {
      LookupRow(TRAP_TEXTS, 0, k);
    }
  }

  /**
    No text gives a code the runtime never reports: no trap, or the
    multiplexed linked-memory code, which the runtime always resolves.
  */
  lemma {:induction false} TrapTextsReported(text: string)
    ensures var r := GetTrapCodeFromTrapText(text);
            r.Some? ==> r.value != R.NONE && r.value != R.LINKEDMEMORY_MUX && R.DemuxTrapCode(r.value, 0) == r.value
  {
    var codes := seq(|TRAP_TEXTS|, k requires 0 <= k < |TRAP_TEXTS| => TRAP_TEXTS[k].1);
    assert codes == [R.UNREACHABLE, R.BUILTIN_TRAP, R.RUNTIME_INTERRUPT_REQUESTED, R.LINMEM_OUTOFBOUNDSACCESS,
                     R.LINMEM_OUTOFBOUNDSACCESS, R.LINKEDMEMORY_OUTOFBOUNDS, R.INDIRECTCALL_WRONGSIG,
                     R.INDIRECTCALL_OUTOFBOUNDS, R.DIV_OVERFLOW, R.DIV_ZERO, R.TRUNC_OVERFLOW,
                     R.CALLED_FUNCTION_NOT_LINKED, R.CALLED_FUNCTION_NOT_LINKED, R.INDIRECTCALL_WRONGSIG];
    assert R.NONE !in codes && R.LINKEDMEMORY_MUX !in codes;
    var r := GetTrapCodeFromTrapText(text);
    if r.Some? {
      var k :| 0 <= k < |TRAP_TEXTS| && TRAP_TEXTS[k] == (text, r.value);
      assert codes[k] == r.value;
    }
  }

  /** The out-of-bounds codes that different backends report for the same access. */
  predicate OutOfBoundsSynonym(c: R.TrapCode) {
    c == R.LINKEDMEMORY_OUTOFBOUNDS || c == R.LINMEM_OUTOFBOUNDSACCESS || c == R.LINMEM_COULDNOTEXTEND
  }

  /** `isExpectedTrap`: equal codes, or two out-of-bounds synonyms. */
  function IsExpectedTrap(trapCode1: R.TrapCode, trapCode2: R.TrapCode): (r: bool)
    ensures trapCode1 == trapCode2 ==> r
    ensures r && trapCode1 != trapCode2 ==> OutOfBoundsSynonym(trapCode1) && OutOfBoundsSynonym(trapCode2)
  {
    if trapCode1 != trapCode2 then OutOfBoundsSynonym(trapCode1) && OutOfBoundsSynonym(trapCode2)
    else true
  }

  /** Accepting a trap is an equivalence: reflexive, symmetric and transitive. */
  lemma {:induction false} ExpectedTrapEquivalence(a: R.TrapCode, b: R.TrapCode, c: R.TrapCode)
    ensures IsExpectedTrap(a, a)
    ensures IsExpectedTrap(a, b) == IsExpectedTrap(b, a)
    ensures IsExpectedTrap(a, b) && IsExpectedTrap(b, c) ==> IsExpectedTrap(a, c)
  {
  }

  /**
    An access out of bounds of linked memory, demultiplexed by the runtime,
    is accepted where the test expects any out-of-bounds trap; without
    linked memory it is accepted only as "not linked".
  */
  lemma {:induction false} DemuxedLinkedMemoryExpected(linkedMemPtr: nat, expected: R.TrapCode)
    ensures linkedMemPtr != 0 ==>
              (IsExpectedTrap(R.DemuxTrapCode(R.LINKEDMEMORY_MUX, linkedMemPtr), expected) <==> OutOfBoundsSynonym(expected))
    ensures linkedMemPtr == 0 ==>
              (IsExpectedTrap(R.DemuxTrapCode(R.LINKEDMEMORY_MUX, linkedMemPtr), expected) <==> expected == R.LINKEDMEMORY_NOTLINKED)
  {
  }
}
