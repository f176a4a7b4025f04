/**
  UTF-8 validation of the names in a Wasm module (`internal_validateUTF8`),
  checked against the UTF-8 syntax of section 4 of RFC 3629, which section
  5.2.4 of the WebAssembly Core Specification adopts for names.

  The validator reads one byte at a time, counting its leading one bits to
  tell a lead byte from a continuation byte, accumulates the code point and
  checks the finished code point against a table of ranges and against the
  UTF-16 surrogate range.
*/
module Utf8 {
  import opened UInt

  // ---------------------------------------------------------------------
  // The reference: RFC 3629, section 4
  // ---------------------------------------------------------------------

  /** UTF8-tail = %x80-BF */
  predicate Tail(b: u8) {
    0x80 <= b <= 0xBF
  }

  /** UTF8-char: one character of exactly |c| octets, by the byte ranges of the grammar. */
  predicate Utf8Char(c: seq<u8>) {
    (|c| == 1 && c[0] <= 0x7F)
    || (|c| == 2 && 0xC2 <= c[0] <= 0xDF && Tail(c[1]))
    || (|c| == 3 && Tail(c[2])
        && ((c[0] == 0xE0 && 0xA0 <= c[1] <= 0xBF)
            || (0xE1 <= c[0] <= 0xEC && Tail(c[1]))
            || (c[0] == 0xED && 0x80 <= c[1] <= 0x9F)
            || (0xEE <= c[0] <= 0xEF && Tail(c[1]))))
    || (|c| == 4 && Tail(c[2]) && Tail(c[3])
        && ((c[0] == 0xF0 && 0x90 <= c[1] <= 0xBF)
            || (0xF1 <= c[0] <= 0xF3 && Tail(c[1]))
            || (c[0] == 0xF4 && 0x80 <= c[1] <= 0x8F)))
  }

  /** The only length a UTF8-char starting with b can have. */
  function CharLength(b: u8): nat {
    if b <= 0x7F then 1 else if b <= 0xDF then 2 else if b <= 0xEF then 3 else 4
  }

  /** UTF8-octets = *( UTF8-char ) */
  predicate WellFormed(s: seq<u8>)
    decreases |s|
  {
    s == []
    || (CharLength(s[0]) <= |s| && Utf8Char(s[..CharLength(s[0])])
        && WellFormed(s[CharLength(s[0])..]))
  }

  /** The first octet of a character fixes its length, so the split into characters is unique. */
  lemma {:induction false} CharLengthDetermined(c: seq<u8>)
    requires Utf8Char(c)
    ensures CharLength(c[0]) == |c|
    ensures forall k :: 1 <= k < |c| ==> Tail(c[k])
  {
  }

  // ---------------------------------------------------------------------
  // The validator's arithmetic
  // ---------------------------------------------------------------------

  /** `clzll(~(byte << 56))`: the number of leading one bits of a byte. */
  function LeadingOnes(b: u8): nat {
    if b < 0x80 then 0 else if b < 0xC0 then 1 else if b < 0xE0 then 2 else if b < 0xF0 then 3
    else if b < 0xF8 then 4 else if b < 0xFC then 5 else if b < 0xFE then 6 else if b < 0xFF then 7
    else 8
  }

  /** Exactly the top n bits of b are ones: 256 - 2^(8-n) <= b < 256 - 2^(7-n). */
  lemma {:induction false} LeadingOnesBits(b: u8)
    ensures var n := LeadingOnes(b);
      n <= 8 && TWO8 - Pow2(8 - n) <= b && (n < 8 ==> b < TWO8 - Pow2(7 - n))
  {
    Pow2Values();
  }

  /**
    `0xFF >> (leadingOnes + 1)` keeps the low 7 - leadingOnes bits, so the
    mask is a remainder modulo this power of two.
  */
  function PayloadModulus(leadingOnes: nat): nat
    requires leadingOnes <= 4
  {
    if leadingOnes == 0 then 128 else if leadingOnes == 1 then 64
    else if leadingOnes == 2 then 32 else if leadingOnes == 3 then 16 else 8
  }

  /** `1 << (6 * k)` for the shifts of at most three pending continuations. */
  function Pow64(k: nat): nat
    requires k <= 3
  {
    if k == 0 then 1 else if k == 1 then 64 else if k == 2 then 4096 else 262144
  }

  /**
    The code point accumulated from the first |c| bytes of a character of
    `total` bytes: the lead byte's payload shifted by 6 * (total - 1), then
    each continuation's low 6 bits shifted by 6 * (bytes still pending).
    The bit fields are disjoint, so the source's `|=` is an addition.
  */
  function Acc(c: seq<u8>, total: nat): nat
    requires 1 <= |c| <= total && 2 <= total <= 4
  {
    if |c| == 1 then (c[0] % PayloadModulus(total)) * Pow64(total - 1)
    else Acc(c[..|c| - 1], total) + (c[|c| - 1] % 64) * Pow64(total - |c|)
  }

  /** `firstCodepoint[n-1] <= cp <= lastCodepoint[n-1]` and not a surrogate. */
  predicate CodepointAccepted(cp: nat, n: nat)
    requires 1 <= n <= 4
  {
    var first := [0x00, 0x80, 0x800, 0x10000];
    var last := [0x7F, 0x7FFF, 0xFFFF, 0x10FFFF];
    first[n - 1] <= cp <= last[n - 1] && !(0xD800 <= cp <= 0xDFFF)
  }

  /**
    For a lead byte with n leading ones followed by n - 1 continuation bytes,
    the validator's check of the decoded code point accepts exactly the byte
    ranges of the grammar: it rejects overlong forms, surrogates and code
    points above 0x10FFFF.
  */
  lemma {:induction false} CheckMatchesGrammar(c: seq<u8>)
    requires 2 <= |c| <= 4 && LeadingOnes(c[0]) == |c|
    requires forall k :: 1 <= k < |c| ==> Tail(c[k])
    ensures CodepointAccepted(Acc(c, |c|), |c|) == Utf8Char(c)
  {
    if |c| == 2 {
      assert CodepointAccepted(Acc(c, 2), 2) == Utf8Char(c) by {
        assert c == [c[0], c[1]];
        AccValue2(c);
        Check2(c[0], c[1]);
      }
    } else if |c| == 3 {
      assert CodepointAccepted(Acc(c, 3), 3) == Utf8Char(c) by {
        assert c == [c[0], c[1], c[2]];
        AccValue3(c);
        Check3(c[0], c[1], c[2]);
      }
    } else {
      assert CodepointAccepted(Acc(c, 4), 4) == Utf8Char(c) by {
        assert c == [c[0], c[1], c[2], c[3]];
        AccValue4(c);
        Check4(c[0], c[1], c[2], c[3]);
      }
    }
  }

  lemma {:induction false} AccValue2(c: seq<u8>)
    requires |c| == 2
    ensures Acc(c, 2) == (c[0] as int % 32) * 64 + c[1] as int % 64
  {
    assert c[..1] == [c[0]];
  }

  lemma {:induction false} AccValue3(c: seq<u8>)
    requires |c| == 3
    ensures Acc(c, 3) == (c[0] as int % 16) * 4096 + (c[1] as int % 64) * 64 + c[2] as int % 64
  {
    var p := c[..2];
    assert p[..1] == [c[0]];
    assert Acc(p, 3) == (c[0] as int % 16) * 4096 + (c[1] as int % 64) * 64;
  }

  lemma {:induction false} AccValue4(c: seq<u8>)
    requires |c| == 4
    ensures Acc(c, 4) == (c[0] as int % 8) * 262144 + (c[1] as int % 64) * 4096
                         + (c[2] as int % 64) * 64 + c[3] as int % 64
  {
    var p := c[..3];
    var q := p[..2];
    assert q[..1] == [c[0]];
    assert Acc(q, 4) == (c[0] as int % 8) * 262144 + (c[1] as int % 64) * 4096;
    assert Acc(p, 4) == Acc(q, 4) + (c[2] as int % 64) * 64;
  }

  lemma {:induction false} Check2(b0: u8, b1: u8)
    requires LeadingOnes(b0) == 2 && Tail(b1)
    ensures CodepointAccepted((b0 as int % 32) * 64 + b1 as int % 64, 2) == Utf8Char([b0, b1])
  {
  }

  lemma {:induction false} Check3(b0: u8, b1: u8, b2: u8)
    requires LeadingOnes(b0) == 3 && Tail(b1) && Tail(b2)
    ensures CodepointAccepted((b0 as int % 16) * 4096 + (b1 as int % 64) * 64 + b2 as int % 64, 3)
      == Utf8Char([b0, b1, b2])
  {
    assert b0 as int % 16 == b0 as int - 0xE0;
    assert b1 as int % 64 == b1 as int - 0x80 && b2 as int % 64 == b2 as int - 0x80;
  }

  lemma {:induction false} Check4(b0: u8, b1: u8, b2: u8, b3: u8)
    requires LeadingOnes(b0) == 4 && Tail(b1) && Tail(b2) && Tail(b3)
    ensures CodepointAccepted((b0 as int % 8) * 262144 + (b1 as int % 64) * 4096
                              + (b2 as int % 64) * 64 + b3 as int % 64, 4)
      == Utf8Char([b0, b1, b2, b3])
  {
    var top := (b0 as int - 0xF0) * 64 + (b1 as int - 0x80);
    var low := (b2 as int - 0x80) * 64 + (b3 as int - 0x80);
    assert b0 as int % 8 == b0 as int - 0xF0 && b1 as int % 64 == b1 as int - 0x80;
    assert b2 as int % 64 == b2 as int - 0x80 && b3 as int % 64 == b3 as int - 0x80;
    assert 0 <= low < 4096;
    assert (b0 as int % 8) * 262144 + (b1 as int % 64) * 4096 + (b2 as int % 64) * 64 + b3 as int % 64
      == top * 4096 + low;
  }

  /** A byte that cannot start a character makes the rest ill-formed. */
  lemma {:induction false} BadLead(s: seq<u8>)
    requires s != [] && (LeadingOnes(s[0]) == 1 || LeadingOnes(s[0]) > 4)
    ensures !WellFormed(s)
  {
  }

  /** An ASCII byte is a character on its own. */
  lemma {:induction false} AsciiStep(s: seq<u8>)
    requires s != [] && LeadingOnes(s[0]) == 0
    ensures WellFormed(s) == WellFormed(s[1..])
  {
    assert s[..1] == [s[0]];
  }

  /** A lead byte with 2 to 4 leading ones announces a character of that many bytes. */
  lemma {:induction false} LeadLength(b: u8)
    requires 2 <= LeadingOnes(b) <= 4
    ensures CharLength(b) == LeadingOnes(b)
  {
  }

  lemma {:induction false} AccStep(c: seq<u8>, b: u8, total: nat)
    requires 1 <= |c| < total && 2 <= total <= 4
    ensures Acc(c + [b], total) == Acc(c, total) + (b % 64) * Pow64(total - |c| - 1)
  {
    assert (c + [b])[..|c|] == c;
  }

  /** A character whose bytes run past the end, or that meets a non-continuation byte, is ill-formed. */
  lemma {:induction false} BrokenChar(s: seq<u8>, k: nat)
    requires s != [] && 2 <= LeadingOnes(s[0]) <= 4
    requires 1 <= k < LeadingOnes(s[0]) && (k >= |s| || !Tail(s[k]))
    ensures !WellFormed(s)
  {
    LeadLength(s[0]);
    if CharLength(s[0]) <= |s| && Utf8Char(s[..CharLength(s[0])]) {
      CharLengthDetermined(s[..CharLength(s[0])]);
    }
  }

  /**
    The validator is inside a character of `total` bytes that starts at
    `start`: the bytes before `i` are its lead byte and continuation bytes,
    and `cp` is the code point accumulated from them.
  */
  ghost predicate InChar(s: seq<u8>, start: nat, i: nat, total: nat, cp: nat) {
    start < i <= |s| && 2 <= total <= 4 && i - start <= total
    && LeadingOnes(s[start]) == total
    && (forall k :: start < k < i ==> Tail(s[k]))
    && cp == Acc(s[start..i], total)
  }

  lemma {:induction false} StartChar(s: seq<u8>, i: nat, cp: nat)
    requires 1 <= i <= |s| && 2 <= LeadingOnes(s[i - 1]) <= 4
    requires cp == (s[i - 1] as int % PayloadModulus(LeadingOnes(s[i - 1]))) * Pow64(LeadingOnes(s[i - 1]) - 1)
    ensures InChar(s, i - 1, i, LeadingOnes(s[i - 1]), cp)
  {
    assert s[i - 1..i] == [s[i - 1]];
  }

  lemma {:induction false} ExtendChar(s: seq<u8>, start: nat, i: nat, total: nat, cp: nat, cp': nat)
    requires i >= 1 && InChar(s, start, i - 1, total, cp) && i - start <= total && i <= |s| && Tail(s[i - 1])
    requires cp' == cp + (s[i - 1] as int % 64) * Pow64(total - (i - start))
    ensures InChar(s, start, i, total, cp')
  {
    assert s[start..i] == s[start..i - 1] + [s[i - 1]];
    AccStep(s[start..i - 1], s[i - 1], total);
  }

  /** A complete character is accepted by the check exactly when the grammar accepts it. */
  lemma {:induction false} FinishChar(s: seq<u8>, start: nat, i: nat, total: nat, cp: nat)
    requires InChar(s, start, i, total, cp) && i - start == total
    ensures WellFormed(s[start..]) == (CodepointAccepted(cp, total) && WellFormed(s[i..]))
  {
    var t := s[start..];
    LeadLength(t[0]);
    assert t[..total] == s[start..i];
    assert t[total..] == s[i..];
    CheckMatchesGrammar(s[start..i]);
  }

  // ---------------------------------------------------------------------
  // The validator
  // ---------------------------------------------------------------------

  /**
    `internal_validateUTF8`: accepts exactly the well-formed UTF-8 strings.
    The counters are `uint32_t` in the source and stay below 2^21 here.
  */
  method ValidateUTF8(s: seq<u8>) returns (ok: bool)
    ensures ok == WellFormed(s)
  {
    var i := 0;
    var pendingContinuations: nat := 0;
    var totalBytes: nat := 0;
    var codepoint: nat := 0;
    ghost var start: nat := 0;
    while i < |s|
      invariant 0 <= i <= |s|
      invariant pendingContinuations == 0 ==> WellFormed(s) == WellFormed(s[i..])
      invariant pendingContinuations > 0 ==>
        InChar(s, start, i, totalBytes, codepoint)
        && i - start == totalBytes - pendingContinuations
        && WellFormed(s) == WellFormed(s[start..])
    {
      var currentByte := s[i];
      i := i + 1;
      var leadingOnes := LeadingOnes(currentByte);
      if pendingContinuations == 0 {
        totalBytes := if leadingOnes == 0 then 1 else leadingOnes;
        pendingContinuations := leadingOnes;
        codepoint := 0;
        if leadingOnes == 1 || leadingOnes > 4 {
          BadLead(s[i - 1..]);
          return false;
        }
        if leadingOnes == 0 {
          AsciiStep(s[i - 1..]);
          assert s[i - 1..][1..] == s[i..];
          continue;
        }
        start := i - 1;
      } else if leadingOnes != 1 {
        BrokenChar(s[start..], i - 1 - start);
        return false;
      }
      // A lead byte of a 2..4-byte character or a continuation byte.
      pendingContinuations := pendingContinuations - 1;
      ghost var before := codepoint;
      codepoint := codepoint + (currentByte as nat % PayloadModulus(leadingOnes)) * Pow64(pendingContinuations);
      if i - 1 == start {
        StartChar(s, i, codepoint);
      } else {
        ExtendChar(s, start, i, totalBytes, before, codepoint);
      }
      if pendingContinuations == 0 {
        FinishChar(s, start, i, totalBytes, codepoint);
        if !CodepointAccepted(codepoint, totalBytes) {
          return false;
        }
      }
    }
    if pendingContinuations != 0 {
      BrokenChar(s[start..], |s| - start);
    }
    return pendingContinuations == 0;
  }
}
