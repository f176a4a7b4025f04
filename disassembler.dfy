/**
  The helpers of the binary-module disassembler (`disassembler.cpp`):
  splitting the known instruction addresses at a code range, reading
  values at a cursor, consuming padded blocks, trimming tabs, printing
  bytes in hex, the raw-byte fallback between known instructions, the
  stack-trace metadata word, and the debug map, read forwards word by
  word. Capstone's instruction decoder is a parameter.
*/
module Disassembler {
  import opened UInt
  import D = DwarfBytes

  // ---------------------------------------------------------------------
  // split
  // ---------------------------------------------------------------------

  /** The first index from `from` whose address is at least `bound`, or the length. */
  function FirstAtLeast(addrs: seq<u32>, bound: nat, from: nat): (i: nat)
    requires from <= |addrs|
    ensures from <= i <= |addrs|
    ensures forall k :: from <= k < i ==> addrs[k] < bound
    ensures i < |addrs| ==> addrs[i] >= bound
    decreases |addrs| - from
  {
    if from == |addrs| || addrs[from] >= bound then from else FirstAtLeast(addrs, bound, from + 1)
  }

  /**
    `split`: the run of addresses from the first one at or above the base
    up to, not including, the next one at or above the end of the range
    (base plus size in 64 bits), or to the end of the list; empty when no
    address reaches the base.
  */
  function SplitSpec(addrs: seq<u32>, base: u64, size: nat): (span: seq<u32>)
    ensures (forall k :: 0 <= k < |addrs| ==> addrs[k] < base) ==> span == []
    ensures span != [] ==> span[0] >= base
    ensures forall k :: 0 <= k < |span| ==> span[k] < Wrap64(base + size)
  {
    var b := FirstAtLeast(addrs, base, 0);
    if b == |addrs| then [] else addrs[b..FirstAtLeast(addrs, Wrap64(base + size), b)]
  }

  /** The two search loops of `split`. */
  method Split(addrs: seq<u32>, base: u64, size: nat) returns (span: seq<u32>)
    ensures span == SplitSpec(addrs, base, size)
  {
    var beginIndex: D.Option<nat> := D.None;
    var endIndex: D.Option<nat> := D.None;
    var index := 0;
    while index < |addrs|
      invariant 0 <= index <= |addrs|
      invariant FirstAtLeast(addrs, base, index) == FirstAtLeast(addrs, base, 0)
    {
      if addrs[index] >= base {
        beginIndex := D.Some(index);
        break;
      }
      index := index + 1;
    }
    var bound := Wrap64(base + size);
    ghost var b := index;
    while index < |addrs|
      invariant b <= index <= |addrs|
      invariant FirstAtLeast(addrs, bound, index) == FirstAtLeast(addrs, bound, b)
    {
      if addrs[index] >= bound {
        endIndex := D.Some(index);
        break;
      }
      index := index + 1;
    }
    if beginIndex.Some? && endIndex.Some? {
      span := addrs[beginIndex.value..endIndex.value];
    } else if beginIndex.Some? {
      span := addrs[beginIndex.value..];
    } else {
      span := [];
    }
  }

  /** The addresses are in ascending order. */
  predicate Sorted(addrs: seq<u32>) {
    forall i, j :: 0 <= i < j < |addrs| ==> addrs[i] <= addrs[j]
  }

  /**
    For ascending addresses and a range that does not wrap, the split
    holds exactly the known addresses inside the range.
  */
  lemma {:induction false} SplitSorted(addrs: seq<u32>, base: u64, size: nat)
    requires Sorted(addrs) && base + size < TWO64
    ensures forall x :: x in SplitSpec(addrs, base, size) <==> x in addrs && base <= x < base + size
  {
    forall x | x in SplitSpec(addrs, base, size) || x in addrs
      ensures x in SplitSpec(addrs, base, size) <==> x in addrs && base <= x < base + size
    {
      SplitHolds(addrs, base, size, x);
      SplitContains(addrs, base, size, x);
    }
  }

  lemma {:induction false} SplitHolds(addrs: seq<u32>, base: u64, size: nat, x: u32)
    requires Sorted(addrs) && base + size < TWO64
    ensures x in SplitSpec(addrs, base, size) ==> x in addrs && base <= x < base + size
  {
    var span := SplitSpec(addrs, base, size);
    if x in span {
      var b := FirstAtLeast(addrs, base, 0);
      assert b < |addrs|;
      var e := FirstAtLeast(addrs, Wrap64(base + size), b);
      assert span == addrs[b..e];
      var k :| 0 <= k < |span| && span[k] == x;
      assert x == addrs[b + k];
      assert addrs[b] <= addrs[b + k];
      assert Wrap64(base + size) == base + size;
    }
  }

  lemma {:induction false} SplitContains(addrs: seq<u32>, base: u64, size: nat, x: u32)
    requires Sorted(addrs) && base + size < TWO64
    ensures x in addrs && base <= x < base + size ==> x in SplitSpec(addrs, base, size)
  {
    if x in addrs && base <= x < base + size {
      var k :| 0 <= k < |addrs| && addrs[k] == x;
      var b := FirstAtLeast(addrs, base, 0);
      assert b <= k;
      assert Wrap64(base + size) == base + size;
      var e := FirstAtLeast(addrs, Wrap64(base + size), b);
      assert SplitSpec(addrs, base, size) == addrs[b..e];
      assert addrs[b..e][k - b] == x;
    }
  }

  // ---------------------------------------------------------------------
  // readValue, consumeBinary, consumeString
  // ---------------------------------------------------------------------

  /** A value read and the cursor after it. */
  datatype Read = Read(value: nat, cursor: nat)

  /**
    `readValue<T>`: backwards, the cursor first steps back by the width
    and then reads; forwards, it reads and then steps ahead. Values are
    little-endian.
  */
  function ReadValue(mem: seq<u8>, cursor: nat, width: nat, forward: bool): (r: Read)
    requires if forward then cursor + width <= |mem| else width <= cursor <= |mem|
    ensures r.value < D.Pow256(width)
  {
    var start := if forward then cursor else cursor - width;
    ReadLEBound(mem[start..start + width]);
    Read(D.ReadLE(mem[start..start + width]), if forward then cursor + width else cursor - width)
  }

  lemma {:induction false} ReadLEBound(bs: seq<u8>)
    ensures D.ReadLE(bs) < D.Pow256(|bs|)
  {
    if bs != [] {
      ReadLEBound(bs[1..]);
    }
  }

  /**
    A forward read undoes a backward one: it reads the same value and
    returns the cursor to where the backward read started.
  */
  lemma {:induction false} ForwardUndoesBackward(mem: seq<u8>, cursor: nat, width: nat)
    requires width <= cursor <= |mem|
    ensures var back := ReadValue(mem, cursor, width, false);
            ReadValue(mem, back.cursor, width, true) == Read(back.value, cursor)
  {
  }

  /** A value written as `width` little-endian bytes is read back from either side. */
  lemma {:induction false} ReadWritten(before: seq<u8>, v: nat, width: nat, after: seq<u8>)
    requires v < D.Pow256(width)
    ensures var mem := before + D.LEBytes(v, width) + after;
            && ReadValue(mem, |before|, width, true) == Read(v, |before| + width)
            && ReadValue(mem, |before| + width, width, false) == Read(v, |before|)
  {
    var mem := before + D.LEBytes(v, width) + after;
    assert mem[|before|..|before| + width] == D.LEBytes(v, width);
    D.ReadLESmall(v, width);
  }

  /** What `consumeBinary`/`consumeString` leave: the new cursor, the block's bytes and the aligned base. */
  datatype Consumed = Consumed(cursor: nat, printed: seq<u8>, text: seq<u8>, alignedBase: nat)

  /**
    `consumeBinary`/`consumeString`: the cursor moves back by the size
    rounded up to 2^p, all padded bytes are printed, the string is its
    first `size` bytes, and the base address is rounded down to 2^p.
  */
  function Consume(mem: seq<u8>, cursor: nat, size: u32, p: nat, baseAddress: nat): (r: Consumed)
    requires p < 32 && RoundUpToPow2(size, p) <= cursor <= |mem|
    ensures r.cursor == cursor - RoundUpToPow2(size, p) && (cursor - r.cursor) % Pow2(p) == 0
    ensures size % Pow2(p) == 0 ==> r.cursor == cursor - size
    ensures size + Pow2(p) <= TWO32 ==> size <= cursor - r.cursor < size + Pow2(p)
    ensures size + Pow2(p) <= TWO32 ==> r.text == mem[r.cursor..r.cursor + size]
    ensures r.printed == mem[r.cursor..cursor]
    ensures r.alignedBase % Pow2(p) == 0 && r.alignedBase <= baseAddress < r.alignedBase + Pow2(p)
  {
    var padded := RoundUpToPow2(size, p);
    var start := cursor - padded;
    Consumed(start, mem[start..cursor], mem[start..start + (if size <= padded then size else padded)], AlignDown(baseAddress, Pow2(p)))
  }

  /** `(x >> p) << p` for `m == 2^p`: x rounded down to a multiple of m. */
  function AlignDown(x: nat, m: nat): (a: nat)
    requires m > 0
    ensures a % m == 0 && a <= x < a + m
  {
    DivModParts(x, m);
    DivModUnique(m * (x / m), m, x / m, 0);
    m * (x / m)
  }

  // ---------------------------------------------------------------------
  // trimtabs
  // ---------------------------------------------------------------------

  /** The number of tabs at the start. */
  function LeadingTabs(s: seq<char>): (n: nat)
    ensures n <= |s| && forall k :: 0 <= k < n ==> s[k] == '\t'
    ensures n < |s| ==> s[n] != '\t'
  {
    if s == [] || s[0] != '\t' then 0 else 1 + LeadingTabs(s[1..])
  }

  /** The number of tabs at the end. */
  function TrailingTabs(s: seq<char>): (n: nat)
    ensures n <= |s| && forall k :: |s| - n <= k < |s| ==> s[k] == '\t'
    ensures n < |s| ==> s[|s| - n - 1] != '\t'
  {
    if s == [] || s[|s| - 1] != '\t' then 0 else 1 + TrailingTabs(s[..|s| - 1])
  }

  /**
    `trimtabs`: a string of tabs only is returned unchanged; any other
    loses its leading and trailing tabs and keeps everything between.
  */
  function TrimTabs(s: seq<char>): (r: seq<char>)
    ensures LeadingTabs(s) == |s| ==> r == s
    ensures LeadingTabs(s) < |s| ==> && r == s[LeadingTabs(s)..|s| - TrailingTabs(s)]
                                     && r != [] && r[0] != '\t' && r[|r| - 1] != '\t'
  {
    var first := LeadingTabs(s);
    if first == |s| then s
    else
      var trailing := TrailingTabs(s);
      assert first < |s| - trailing;
      s[first..|s| - trailing]
  }

  /** `n` tab characters. */
  function Tabs(n: nat): (r: seq<char>)
    ensures |r| == n && forall k :: 0 <= k < n ==> r[k] == '\t'
  {
    seq(n, _ => '\t')
  }

  /**
    Trimming recovers a text that neither starts nor ends with a tab from
    any tabs put around it.
  */
  lemma {:induction false} TrimTabsAround(a: nat, t: seq<char>, b: nat)
    requires t != [] && t[0] != '\t' && t[|t| - 1] != '\t'
    ensures TrimTabs(Tabs(a) + t + Tabs(b)) == t
  {
    var s := Tabs(a) + t + Tabs(b);
    var first := LeadingTabs(s);
    var trailing := TrailingTabs(s);
    assert s[a] == t[0];
    assert first == a;
    assert s[a + |t| - 1] == t[|t| - 1];
    assert trailing == b;
    assert s[a..|s| - b] == t;
  }

  /** Trimming twice is trimming once. */
  lemma {:induction false} TrimTabsIdempotent(s: seq<char>)
    ensures TrimTabs(TrimTabs(s)) == TrimTabs(s)
  {
    var r := TrimTabs(s);
    if LeadingTabs(s) < |s| {
      TrimTabsAround(0, r, 0);
      assert Tabs(0) + r + Tabs(0) == r;
    }
  }

  // ---------------------------------------------------------------------
  // printBytes
  // ---------------------------------------------------------------------

  /** The lower-case hex digit of 0..15. */
  function HexDigit(d: nat): (c: char)
    requires d < 16
    ensures c in "0123456789abcdef"
  {
    "0123456789abcdef"[d]
  }

  /** The value of a lower-case hex digit. */
  function HexValue(c: char): nat {
    if '0' <= c <= '9' then c as nat - '0' as nat
    else if 'a' <= c <= 'f' then c as nat - 'a' as nat + 10
    else 0
  }

  /** `setw(2) << setfill('0') << hex`: the two digits of a byte. */
  function HexByte(b: u8): (r: seq<char>)
    ensures |r| == 2 && r[0] != ' ' && r[1] != ' '
  {
    [HexDigit(b / 16), HexDigit(b % 16)]
  }

  /** A byte is recovered from its two digits. */
  lemma {:induction false} HexByteRoundTrip(b: u8)
    ensures 16 * HexValue(HexByte(b)[0]) + HexValue(HexByte(b)[1]) == b
  {
    var digits := "0123456789abcdef";
    assert forall d :: 0 <= d < 16 ==> HexValue(digits[d]) == d;
  }

  /** The bytes in hex, separated by single spaces. */
  function RawBytes(bytes: seq<u8>): (r: seq<char>)
    ensures |r| == if bytes == [] then 0 else 3 * |bytes| - 1
  {
    if bytes == [] then []
    else if |bytes| == 1 then HexByte(bytes[0])
    else RawBytes(bytes[..|bytes| - 1]) + " " + HexByte(bytes[|bytes| - 1])
  }

  /** Byte `k` sits at characters `3k`, `3k + 1`, followed by a space unless it is the last. */
  lemma {:induction false} RawBytesAt(bytes: seq<u8>, k: nat)
    requires k < |bytes|
    ensures RawBytes(bytes)[3 * k] == HexByte(bytes[k])[0] && RawBytes(bytes)[3 * k + 1] == HexByte(bytes[k])[1]
    decreases |bytes|
  {
    if |bytes| > 1 {
      var init := bytes[..|bytes| - 1];
      var front := RawBytes(init);
      var last := HexByte(bytes[|bytes| - 1]);
      assert RawBytes(bytes) == front + " " + last;
      assert init != [] && |front| == 3 * |init| - 1;
      if k < |init| {
        RawBytesAt(init, k);
        JoinLeft(front, last, 3 * k);
        JoinLeft(front, last, 3 * k + 1);
        assert init[k] == bytes[k];
      } else {
        assert 3 * k == |front| + 1;
        JoinRight(front, last, 0);
        JoinRight(front, last, 1);
      }
    }
  }

  /** Every byte but the last is followed by a space. */
  lemma {:induction false} RawBytesSpace(bytes: seq<u8>, k: nat)
    requires k + 1 < |bytes|
    ensures RawBytes(bytes)[3 * k + 2] == ' '
    decreases |bytes|
  {
    var init := bytes[..|bytes| - 1];
    var front := RawBytes(init);
    var last := HexByte(bytes[|bytes| - 1]);
    assert RawBytes(bytes) == front + " " + last;
    if k + 1 < |init| {
      RawBytesSpace(init, k);
      JoinLeft(front, last, 3 * k + 2);
    }
  }

  /** The characters of the first of two texts joined by a space keep their places. */
  lemma {:induction false} JoinLeft(a: seq<char>, b: seq<char>, j: nat)
    requires j < |a|
    ensures (a + " " + b)[j] == a[j]
  {
  }

  /** The characters of the second text follow the first text and the space. */
  lemma {:induction false} JoinRight(a: seq<char>, b: seq<char>, j: nat)
    requires j < |b|
    ensures (a + " " + b)[|a| + 1 + j] == b[j]
  {
  }

  /** The raw bytes can be read back from their hex text. */
  lemma {:induction false} RawBytesRoundTrip(bytes: seq<u8>)
    ensures forall k :: 0 <= k < |bytes| ==>
              16 * HexValue(RawBytes(bytes)[3 * k]) + HexValue(RawBytes(bytes)[3 * k + 1]) == bytes[k]
  {
    forall k | 0 <= k < |bytes|
      ensures 16 * HexValue(RawBytes(bytes)[3 * k]) + HexValue(RawBytes(bytes)[3 * k + 1]) == bytes[k]
    {
      RawBytesAt(bytes, k);
      HexByteRoundTrip(bytes[k]);
    }
  }

  /** `TtyControl::Blue` for machine code, `TtyControl::Green` for data. */
  datatype Colour = Blue | Green

  /** Output pieces: plain text, or text between a colour code and the reset code. */
  datatype Piece = Plain(text: seq<char>) | Coloured(colour: Colour, body: seq<char>)

  /** `MultiStringOutput`. */
  datatype MultiStringOutput = MultiStringOutput(hasTwoStrings: bool, first: seq<Piece>, second: seq<Piece>)

  /** The width of the bytes column. */
  const BYTES_COLUMN_WIDTH: nat := 29

  /** `setw(w)` with blanks: right-aligned in a field of at least `w` characters. */
  function PadLeft(s: seq<char>, w: nat): (r: seq<char>)
    ensures |r| == if |s| < w then w else |s|
    ensures r[|r| - |s|..] == s
  {
    if |s| < w then seq(w - |s|, _ => ' ') + s else s
  }

  /** `n` "vv" markers separated by single spaces. */
  function Markers(n: nat): (r: seq<char>)
    ensures |r| == if n == 0 then 0 else 3 * n - 1
  {
    if n == 0 then [] else if n == 1 then "vv" else Markers(n - 1) + " vv"
  }

  /** `std::min(count, 10)`. */
  function MarkerCount(count: nat): nat {
    if count < 10 then count else 10
  }

  /**
    `printBytes`: the hex text goes into the bytes column, right-aligned,
    when it fits the 29 characters; otherwise it becomes the second string
    and the first holds one "vv" per byte, at most ten.
  */
  method PrintBytes(bytes: seq<u8>, isMachineCode: bool) returns (out: MultiStringOutput)
    ensures var raw := RawBytes(bytes);
            var colour := if isMachineCode then Blue else Green;
            if |raw| > BYTES_COLUMN_WIDTH then
              out == MultiStringOutput(true, [Plain(Markers(MarkerCount(|bytes|)))], [Coloured(colour, raw)])
            else
              out == MultiStringOutput(false, [Coloured(colour, PadLeft(raw, BYTES_COLUMN_WIDTH))], [])
  {
    var raw := HexText(bytes);
    var colour := if isMachineCode then Blue else Green;
    if |raw| > BYTES_COLUMN_WIDTH {
      var markers := MarkerText(MarkerCount(|bytes|));
      out := MultiStringOutput(true, [Plain(markers)], [Coloured(colour, raw)]);
    } else {
      out := MultiStringOutput(false, [Coloured(colour, PadLeft(raw, BYTES_COLUMN_WIDTH))], []);
    }
  }

  /** The first loop of `printBytes`: the bytes in hex, a space before each but the first. */
  method HexText(bytes: seq<u8>) returns (raw: seq<char>)
    ensures raw == RawBytes(bytes)
  {
    raw := [];
    var i := 0;
    while i < |bytes|
      invariant 0 <= i <= |bytes| && raw == RawBytes(bytes[..i])
    {
      ghost var prefix := bytes[..i + 1];
      assert prefix[..i] == bytes[..i] && prefix[i] == bytes[i];
      if i > 0 {
        raw := raw + " ";
      }
      raw := raw + HexByte(bytes[i]);
      i := i + 1;
    }
    assert bytes[..i] == bytes;
  }

  /** The second loop of `printBytes`: `n` markers, a space before each but the first. */
  method MarkerText(n: nat) returns (markers: seq<char>)
    ensures markers == Markers(n)
  {
    markers := [];
    var j := 0;
    while j < n
      invariant 0 <= j <= n && markers == Markers(j)
    {
      if j > 0 {
        markers := markers + " ";
      }
      markers := markers + "vv";
      j := j + 1;
    }
  }

  /**
    Up to ten bytes fill at most 29 characters and fit the column, which
    they then fill exactly; eleven or more need the two-string form.
  */
  lemma {:induction false} PrintBytesForm(bytes: seq<u8>)
    ensures |RawBytes(bytes)| > BYTES_COLUMN_WIDTH <==> |bytes| >= 11
    ensures |RawBytes(bytes)| <= BYTES_COLUMN_WIDTH ==> |PadLeft(RawBytes(bytes), BYTES_COLUMN_WIDTH)| == BYTES_COLUMN_WIDTH
  {
  }

  // ---------------------------------------------------------------------
  // disasm: the raw-byte fallback between known instructions
  // ---------------------------------------------------------------------

  /** What the disassembler emitted at an address. */
  datatype InsnKind = Decoded | RawWord(word: nat) | RawByte(byte: u8)

  /** One emitted instruction or raw item. */
  datatype Insn = Insn(address: nat, size: nat, kind: InsnKind)

  /**
    The size of a raw item in a gap: a 4-byte word when at least four bytes
    remain both before the next known instruction (the distance taken in
    64 bits) and in the buffer, otherwise a single byte.
  */
  function RawChunk(nextKnown: nat, address: nat, remaining: nat): (n: nat)
    ensures n == 4 <==> Wrap64(nextKnown - address) >= 4 && remaining >= 4
    ensures n == 1 || n == 4
    ensures address < nextKnown && address + 4 < TWO64 && n == 4 ==> address + n <= nextKnown
    ensures remaining >= 1 ==> n <= remaining
  {
    if Wrap64(nextKnown - address) >= 4 && remaining >= 4 then 4 else 1
  }

  /**
    The decoder: the number of bytes the instruction at an address takes,
    0 when it cannot decode it. A count beyond the remaining bytes is
    taken as a failure.
  */
  type Decoder = (nat, seq<u8>) -> nat

  /**
    One step of `disasm` at byte `pos`, with `next` the index of the next
    known instruction in the split span: in a gap after a known
    instruction, a raw item; at a known address, before the first one or
    after the last one, the decoder runs and a failure ends the output.
    The result is the item and the index of the next known instruction
    after it.
  */
  function Step(code: seq<u8>, pos: nat, span: seq<u32>, next: nat, base: nat, decode: Decoder): (r: D.Option<(Insn, nat)>)
    requires pos < |code|
    ensures r.Some? ==> r.value.0.address == base + pos && 1 <= r.value.0.size <= |code| - pos
    ensures r.Some? && r.value.0.kind != Decoded ==> r.value.1 == next && 0 < next < |span|
  {
    var address := base + pos;
    var rest := code[pos..];
    if next < |span| && next != 0 && address != span[next] then
      var n := RawChunk(span[next], address, |rest|);
      var kind := if n == 4 then RawWord(D.ReadLE(rest[..4])) else RawByte(rest[0]);
      D.Some((Insn(address, n, kind), next))
    else
      var n := decode(address, rest);
      if n == 0 || n > |rest| then D.None
      else D.Some((Insn(address, n, Decoded), if next < |span| && address == span[next] then next + 1 else next))
  }

  /** `disasm` from byte `pos` on: the steps until the code ends or the decoder fails. */
  function DisasmFrom(code: seq<u8>, pos: nat, span: seq<u32>, next: nat, base: nat, decode: Decoder): seq<Insn>
    requires pos <= |code|
    decreases |code| - pos
  {
    if pos == |code| then []
    else
      var s := Step(code, pos, span, next, base, decode);
      if s.None? then [] else [s.value.0] + DisasmFrom(code, pos + s.value.0.size, span, s.value.1, base, decode)
  }

  /** The body of the loop of `disasm`. */
  method DisasmStep(code: seq<u8>, pos: nat, span: seq<u32>, next: nat, base: nat, decode: Decoder) returns (r: D.Option<(Insn, nat)>)
    requires pos < |code|
    ensures r == Step(code, pos, span, next, base, decode)
  {
    var address := base + pos;
    var rest := code[pos..];
    if next < |span| {
      if address == span[next] {
        var n := decode(address, rest);
        if n == 0 || n > |rest| {
          return D.None;
        }
        return D.Some((Insn(address, n, Decoded), next + 1));
      } else if next != 0 {
        var n := RawChunk(span[next], address, |rest|);
        if n == 4 {
          return D.Some((Insn(address, 4, RawWord(D.ReadLE(rest[..4]))), next));
        }
        return D.Some((Insn(address, 1, RawByte(rest[0])), next));
      }
    }
    var n := decode(address, rest);
    if n == 0 || n > |rest| {
      return D.None;
    }
    r := D.Some((Insn(address, n, Decoded), next));
  }

  /** `disasm`: the loop over the code, over the span `split` gives for the range. */
  method Disasm(code: seq<u8>, base: u64, addrs: seq<u32>, decode: Decoder) returns (insns: seq<Insn>)
    ensures insns == DisasmFrom(code, 0, SplitSpec(addrs, base, |code|), 0, base, decode)
  {
    var span := Split(addrs, base, |code|);
    insns := DisasmSpan(code, base, span, decode);
  }

  /** The loop of `disasm` over a split span. */
  method DisasmSpan(code: seq<u8>, base: u64, span: seq<u32>, decode: Decoder) returns (insns: seq<Insn>)
    ensures insns == DisasmFrom(code, 0, span, 0, base, decode)
  {
    insns := [];
    var pos := 0;
    var next := 0;
    ghost var all := DisasmFrom(code, 0, span, 0, base, decode);
    EmptyPrefix(all);
    while pos < |code|
      invariant pos <= |code|
      invariant insns + DisasmFrom(code, pos, span, next, base, decode) == all
      decreases |code| - pos
    {
      var done;
      done, insns, pos, next := DisasmTurn(code, pos, span, next, base, decode, insns, all);
      if done {
        return;
      }
    }
    DisasmFromEnd(code, span, next, base, decode);
    KeepAll(insns, DisasmFrom(code, pos, span, next, base, decode), all);
  }

  /** One turn of the loop of `disasm`: print one item, or stop when the decoder fails. */
  method DisasmTurn(code: seq<u8>, pos: nat, span: seq<u32>, next: nat, base: nat, decode: Decoder,
                    insns: seq<Insn>, ghost all: seq<Insn>)
    returns (done: bool, insns': seq<Insn>, pos': nat, next': nat)
    requires pos < |code| && insns + DisasmFrom(code, pos, span, next, base, decode) == all
    ensures done ==> insns' == all
    ensures !done ==> pos < pos' <= |code| && insns' + DisasmFrom(code, pos', span, next', base, decode) == all
  {
    var s := DisasmOne(code, pos, span, next, base, decode);
    if s.None? {
      KeepAll(insns, DisasmFrom(code, pos, span, next, base, decode), all);
      return true, insns, pos, next;
    }
    ghost var later := DisasmFrom(code, pos + s.value.0.size, span, s.value.1, base, decode);
    KeepPrefix(insns, DisasmFrom(code, pos, span, next, base, decode), s.value.0, later, all);
    done, insns', pos', next' := false, insns + [s.value.0], pos + s.value.0.size, s.value.1;
  }

  /** The printed prefix and the rest of the output make up the whole output. */
  lemma KeepPrefix(insns: seq<Insn>, rest: seq<Insn>, insn: Insn, later: seq<Insn>, all: seq<Insn>)
    requires insns + rest == all && rest == [insn] + later
    ensures (insns + [insn]) + later == all
  {
  }

  /** Nothing more is printed. */
  lemma KeepAll(insns: seq<Insn>, rest: seq<Insn>, all: seq<Insn>)
    requires insns + rest == all && rest == []
    ensures insns == all
  {
  }

  lemma EmptyPrefix(insns: seq<Insn>)
    ensures [] + insns == insns
  {
  }

  /** `DisasmFrom` at the end of the code is empty. */
  lemma DisasmFromEnd(code: seq<u8>, span: seq<u32>, next: nat, base: nat, decode: Decoder)
    ensures DisasmFrom(code, |code|, span, next, base, decode) == []
  {
  }

  /** One turn of the loop of `disasm`: the item it prints, and where the rest of the output starts. */
  method DisasmOne(code: seq<u8>, pos: nat, span: seq<u32>, next: nat, base: nat, decode: Decoder) returns (r: D.Option<(Insn, nat)>)
    requires pos < |code|
    ensures r.None? ==> DisasmFrom(code, pos, span, next, base, decode) == []
    ensures r.Some? ==> 1 <= r.value.0.size && pos + r.value.0.size <= |code|
    ensures r.Some? ==> DisasmFrom(code, pos, span, next, base, decode)
                        == [r.value.0] + DisasmFrom(code, pos + r.value.0.size, span, r.value.1, base, decode)
  {
    r := DisasmStep(code, pos, span, next, base, decode);
    if r.None? {
      DisasmFromStop(code, pos, span, next, base, decode);
    } else {
      DisasmFromStep(code, pos, span, next, base, decode, r.value.0, r.value.1);
    }
  }

  /** `DisasmFrom` ends where a step fails. */
  lemma DisasmFromStop(code: seq<u8>, pos: nat, span: seq<u32>, next: nat, base: nat, decode: Decoder)
    requires pos < |code| && Step(code, pos, span, next, base, decode).None?
    ensures DisasmFrom(code, pos, span, next, base, decode) == []
  {
  }

  /** Unfolding `DisasmFrom` once, at a step that produces an item. */
  lemma DisasmFromStep(code: seq<u8>, pos: nat, span: seq<u32>, next: nat, base: nat, decode: Decoder, insn: Insn, next': nat)
    requires pos < |code| && Step(code, pos, span, next, base, decode) == D.Some((insn, next'))
    requires pos + insn.size <= |code|
    ensures DisasmFrom(code, pos, span, next, base, decode) == [insn] + DisasmFrom(code, pos + insn.size, span, next', base, decode)
  {
  }

  /** The items follow each other without gaps or overlaps from `start`, and end no later than `end`. */
  predicate Contiguous(insns: seq<Insn>, start: nat, end: nat)
    decreases |insns|
  {
    if insns == [] then start <= end
    else insns[0].address == start && insns[0].size >= 1 && Contiguous(insns[1..], start + insns[0].size, end)
  }

  /** The output covers the code from the start, each item right after the one before, inside the buffer. */
  lemma {:induction false} DisasmContiguous(code: seq<u8>, pos: nat, span: seq<u32>, next: nat, base: nat, decode: Decoder)
    requires pos <= |code|
    ensures Contiguous(DisasmFrom(code, pos, span, next, base, decode), base + pos, base + |code|)
    decreases |code| - pos
  {
    if pos < |code| {
      var s := Step(code, pos, span, next, base, decode);
      if s.Some? {
        DisasmContiguous(code, pos + s.value.0.size, span, s.value.1, base, decode);
        var out := DisasmFrom(code, pos, span, next, base, decode);
        assert out[1..] == DisasmFrom(code, pos + s.value.0.size, span, s.value.1, base, decode);
      }
    }
  }

  /** Without known instructions in the range, everything comes from the decoder. */
  lemma {:induction false} DisasmNoRawWithoutAddresses(code: seq<u8>, pos: nat, base: nat, decode: Decoder)
    requires pos <= |code|
    ensures forall k :: 0 <= k < |DisasmFrom(code, pos, [], 0, base, decode)| ==> DisasmFrom(code, pos, [], 0, base, decode)[k].kind == Decoded
    decreases |code| - pos
  {
    if pos < |code| {
      var s := Step(code, pos, [], 0, base, decode);
      if s.Some? {
        DisasmNoRawWithoutAddresses(code, pos + s.value.0.size, base, decode);
        var out := DisasmFrom(code, pos, [], 0, base, decode);
        assert out[1..] == DisasmFrom(code, pos + s.value.0.size, [], 0, base, decode);
      }
    }
  }

  // ---------------------------------------------------------------------
  // The stack-trace metadata word
  // ---------------------------------------------------------------------

  /** `stacktraceEntry & ~0x8000'0000U`: the record count, the word without bit 31. */
  function StacktraceRecordCount(word: u32): (n: u32)
    ensures n < 0x8000_0000
  {
    word % 0x8000_0000
  }

  /** `stacktraceEntry & 0x8000'0000U`: the debug flag, bit 31 left in place. */
  function DebugMode(word: u32): (d: u32)
    ensures d == 0 || d == 0x8000_0000
  {
    (word / 0x8000_0000) * 0x8000_0000
  }

  /** The word the compiler stores for a record count and a debug flag. */
  function StacktraceWord(count: nat, debug: bool): (w: u32)
    requires count < 0x8000_0000
  {
    count + if debug then 0x8000_0000 else 0
  }

  /** The count and the flag together make up the word. */
  lemma {:induction false} StacktraceWordSplit(word: u32)
    ensures StacktraceRecordCount(word) + DebugMode(word) == word
  {
  }

  /** Decoding a stored word gives back its count and flag. */
  lemma {:induction false} StacktraceWordRoundTrip(count: nat, debug: bool)
    requires count < 0x8000_0000
    ensures StacktraceRecordCount(StacktraceWord(count, debug)) == count
    ensures DebugMode(StacktraceWord(count, debug)) != 0 <==> debug
  {
    var w := StacktraceWord(count, debug);
    DivModUnique(w, 0x8000_0000, if debug then 1 else 0, count);
  }

  // ---------------------------------------------------------------------
  // The debug map
  // ---------------------------------------------------------------------

  /** One function's debug entry: its index, its locals' frame offsets and its (in, out) offset pairs. */
  datatype FunctionDebugInfo = FunctionDebugInfo(fncIndex: u32, localOffsets: seq<u32>, machineCodeEntries: seq<(u32, u32)>)

  /** The debug map's fields, in the order they are stored. */
  datatype DebugMap = DebugMap(version: u32, lastFramePtrOffset: u32, actualLinMemSizeOffset: u32,
                               linkDataStartOffset: u32, genericTrapHandlerOffset: u32,
                               globals: seq<(u32, u32)>, functions: seq<FunctionDebugInfo>)

  /** `n` words from `pos`, and the position after them. */
  function ReadWords(words: seq<u32>, pos: nat, n: nat): (r: D.Option<(seq<u32>, nat)>)
    ensures r.Some? <==> pos + n <= |words|
    ensures r.Some? ==> |r.value.0| == n && r.value.1 == pos + n
  {
    if pos + n <= |words| then D.Some((words[pos..pos + n], pos + n)) else D.None
  }

  /** `n` pairs of words from `pos`, and the position after them. */
  function ReadPairs(words: seq<u32>, pos: nat, n: nat): (r: D.Option<(seq<(u32, u32)>, nat)>)
    ensures r.Some? <==> pos + 2 * n <= |words|
    ensures r.Some? ==> |r.value.0| == n && r.value.1 == pos + 2 * n
  {
    if pos + 2 * n <= |words| then D.Some((seq(n, i requires 0 <= i < n => (words[pos + 2 * i], words[pos + 2 * i + 1])), pos + 2 * n))
    else D.None
  }

  /** One function's entry: index, number of locals, their offsets, number of pairs, the pairs. */
  function ReadFunction(words: seq<u32>, pos: nat): (r: D.Option<(FunctionDebugInfo, nat)>)
    ensures r.Some? ==> pos + 2 <= r.value.1 <= |words|
  {
    if pos + 2 > |words| then D.None
    else
      var locals := ReadWords(words, pos + 2, words[pos + 1]);
      if locals.None? || locals.value.1 >= |words| then D.None
      else
        var p := locals.value.1;
        var entries := ReadPairs(words, p + 1, words[p]);
        if entries.None? then D.None
        else D.Some((FunctionDebugInfo(words[pos], locals.value.0, entries.value.0), entries.value.1))
  }

  /** `n` function entries from `pos`. */
  function ReadFunctions(words: seq<u32>, pos: nat, n: nat): (r: D.Option<(seq<FunctionDebugInfo>, nat)>)
    ensures r.Some? ==> |r.value.0| == n && pos <= r.value.1 <= |words|
    decreases n
  {
    if n == 0 then (if pos <= |words| then D.Some(([], pos)) else D.None)
    else
      var f := ReadFunction(words, pos);
      if f.None? then D.None
      else
        var rest := ReadFunctions(words, f.value.1, n - 1);
        if rest.None? then D.None else D.Some(([f.value.0] + rest.value.0, rest.value.1))
  }

  /** `disassembleDebugMap`: the five header words, the globals, then the functions, all read forwards. */
  function ReadDebugMap(words: seq<u32>): D.Option<(DebugMap, nat)> {
    if |words| < 6 then D.None
    else
      var globals := ReadPairs(words, 6, words[5]);
      if globals.None? || globals.value.1 >= |words| then D.None
      else
        var p := globals.value.1;
        var functions := ReadFunctions(words, p + 1, words[p]);
        if functions.None? then D.None
        else D.Some((DebugMap(words[0], words[1], words[2], words[3], words[4], globals.value.0, functions.value.0), functions.value.1))
  }

  /** `D.Some((acc + xs, p))` for a read of `xs`; a failed read stays failed. */
  function Prepend(acc: seq<FunctionDebugInfo>, r: D.Option<(seq<FunctionDebugInfo>, nat)>): D.Option<(seq<FunctionDebugInfo>, nat)> {
    if r.None? then D.None else D.Some((acc + r.value.0, r.value.1))
  }

  lemma PrependNothing(r: D.Option<(seq<FunctionDebugInfo>, nat)>)
    ensures Prepend([], r) == r
  {
    if r.Some? {
      assert [] + r.value.0 == r.value.0;
    }
  }

  /** Reading one more entry moves it from the read to the prefix. */
  lemma {:induction false} PrependStep(words: seq<u32>, pos: nat, n: nat, acc: seq<FunctionDebugInfo>,
                                       f: FunctionDebugInfo, p: nat)
    requires n > 0 && ReadFunction(words, pos) == D.Some((f, p))
    ensures Prepend(acc + [f], ReadFunctions(words, p, n - 1)) == Prepend(acc, ReadFunctions(words, pos, n))
  {
    var rest := ReadFunctions(words, p, n - 1);
    if rest.Some? {
      assert acc + ([f] + rest.value.0) == (acc + [f]) + rest.value.0;
    }
  }

  /** Nothing left to read. */
  lemma PrependLast(words: seq<u32>, pos: nat, acc: seq<FunctionDebugInfo>)
    requires pos <= |words|
    ensures Prepend(acc, ReadFunctions(words, pos, 0)) == D.Some((acc, pos))
  {
    assert acc + [] == acc;
  }

  /** A loop reading `n` words forwards from `pos`; reading past the end fails. */
  method ReadWordsAt(words: seq<u32>, pos: nat, n: nat) returns (r: D.Option<(seq<u32>, nat)>)
    ensures r == ReadWords(words, pos, n)
  {
    if pos + n > |words| {
      return D.None;
    }
    var cursor := pos;
    var values: seq<u32> := [];
    for j := 0 to n
      invariant cursor == pos + j && values == words[pos..cursor]
    {
      values := values + [words[cursor]];
      cursor := cursor + 1;
    }
    r := D.Some((values, cursor));
  }

  /** A loop reading `n` pairs of words forwards from `pos`; reading past the end fails. */
  method ReadPairsAt(words: seq<u32>, pos: nat, n: nat) returns (r: D.Option<(seq<(u32, u32)>, nat)>)
    ensures r == ReadPairs(words, pos, n)
  {
    if pos + 2 * n > |words| {
      return D.None;
    }
    var cursor := pos;
    var pairs: seq<(u32, u32)> := [];
    for k := 0 to n
      invariant cursor == pos + 2 * k
      invariant |pairs| == k && forall i :: 0 <= i < k ==> pairs[i] == (words[pos + 2 * i], words[pos + 2 * i + 1])
    {
      pairs := pairs + [(words[cursor], words[cursor + 1])];
      cursor := cursor + 2;
    }
    assert pairs == ReadPairs(words, pos, n).value.0;
    r := D.Some((pairs, cursor));
  }

  /** One function's entry, read as `disassembleDebugMap` reads it. */
  method ReadFunctionAt(words: seq<u32>, pos: nat) returns (r: D.Option<(FunctionDebugInfo, nat)>)
    ensures r == ReadFunction(words, pos)
  {
    if pos + 2 > |words| {
      return D.None;
    }
    var locals := ReadWordsAt(words, pos + 2, words[pos + 1]);
    if locals.None? || locals.value.1 >= |words| {
      return D.None;
    }
    var p := locals.value.1;
    var entries := ReadPairsAt(words, p + 1, words[p]);
    if entries.None? {
      return D.None;
    }
    r := D.Some((FunctionDebugInfo(words[pos], locals.value.0, entries.value.0), entries.value.1));
  }

  /** `disassembleDebugMap`, with its loops over the globals and the functions. */
  method DisassembleDebugMap(words: seq<u32>) returns (r: D.Option<(DebugMap, nat)>)
    ensures r == ReadDebugMap(words)
  {
    if |words| < 6 {
      return D.None;
    }
    var globals := ReadPairsAt(words, 6, words[5]);
    if globals.None? || globals.value.1 >= |words| {
      return D.None;
    }
    var functions := ReadFunctionsAt(words, globals.value.1 + 1, words[globals.value.1]);
    if functions.None? {
      return D.None;
    }
    r := D.Some((DebugMap(words[0], words[1], words[2], words[3], words[4], globals.value.0, functions.value.0), functions.value.1));
  }

  /** The loop over the function entries of `disassembleDebugMap`. */
  method ReadFunctionsAt(words: seq<u32>, pos: nat, n: nat) returns (r: D.Option<(seq<FunctionDebugInfo>, nat)>)
    requires pos <= |words|
    ensures r == ReadFunctions(words, pos, n)
  {
    var cursor: nat := pos;
    var functions: seq<FunctionDebugInfo> := [];
    PrependNothing(ReadFunctions(words, pos, n));
    for i := 0 to n
      invariant cursor <= |words|
      invariant Prepend(functions, ReadFunctions(words, cursor, n - i)) == ReadFunctions(words, pos, n)
    {
      var f := ReadFunctionAt(words, cursor);
      if f.None? {
        return D.None;
      }
      PrependStep(words, cursor, n - i, functions, f.value.0, f.value.1);
      functions := functions + [f.value.0];
      cursor := f.value.1;
    }
    PrependLast(words, cursor, functions);
    r := D.Some((functions, cursor));
  }

  // The encoding the compiler writes, the partner of the reader.

  /** The lengths of every list fit the 32-bit count words. */
  predicate Encodable(m: DebugMap) {
    |m.globals| < TWO32 && |m.functions| < TWO32 && AllEncodable(m.functions)
  }

  predicate FunctionEncodable(f: FunctionDebugInfo) {
    |f.localOffsets| < TWO32 && |f.machineCodeEntries| < TWO32
  }

  predicate AllEncodable(fs: seq<FunctionDebugInfo>) {
    fs == [] || (FunctionEncodable(fs[0]) && AllEncodable(fs[1..]))
  }

  /** Pairs as consecutive words. */
  function PairWords(pairs: seq<(u32, u32)>): (r: seq<u32>)
    ensures |r| == 2 * |pairs|
    ensures forall i :: 0 <= i < |pairs| ==> r[2 * i] == pairs[i].0 && r[2 * i + 1] == pairs[i].1
  {
    if pairs == [] then [] else [pairs[0].0, pairs[0].1] + PairWords(pairs[1..])
  }

  function FunctionWords(f: FunctionDebugInfo): seq<u32>
    requires FunctionEncodable(f)
  {
    [f.fncIndex, |f.localOffsets| as u32] + f.localOffsets + [|f.machineCodeEntries| as u32] + PairWords(f.machineCodeEntries)
  }

  function FunctionsWords(fs: seq<FunctionDebugInfo>): seq<u32>
    requires AllEncodable(fs)
  {
    if fs == [] then [] else FunctionWords(fs[0]) + FunctionsWords(fs[1..])
  }

  function DebugMapWords(m: DebugMap): seq<u32>
    requires Encodable(m)
  {
    [m.version, m.lastFramePtrOffset, m.actualLinMemSizeOffset, m.linkDataStartOffset, m.genericTrapHandlerOffset,
     |m.globals| as u32] + PairWords(m.globals) + [|m.functions| as u32] + FunctionsWords(m.functions)
  }

  /** `ws` sits in `words` from `pos` on, word by word. */
  predicate Stored(words: seq<u32>, pos: nat, ws: seq<u32>)
    decreases |ws|
  {
    if ws == [] then pos <= |words| else pos < |words| && words[pos] == ws[0] && Stored(words, pos + 1, ws[1..])
  }

  /** Everything from `pos` on is stored at `pos`. */
  lemma {:induction false} StoredRest(words: seq<u32>, pos: nat)
    requires pos <= |words|
    ensures Stored(words, pos, words[pos..])
    decreases |words| - pos
  {
    if pos < |words| {
      StoredRest(words, pos + 1);
      assert words[pos..][1..] == words[pos + 1..];
    }
  }

  /** A stored piece is the slice of `words` it covers. */
  lemma {:induction false} StoredSlice(words: seq<u32>, pos: nat, ws: seq<u32>)
    requires Stored(words, pos, ws)
    ensures pos + |ws| <= |words| && words[pos..pos + |ws|] == ws
    decreases |ws|
  {
    if ws != [] {
      StoredSlice(words, pos + 1, ws[1..]);
      assert words[pos..pos + |ws|] == [words[pos]] + words[pos + 1..pos + |ws|];
      assert ws == [ws[0]] + ws[1..];
    }
  }

  /** Two pieces stored one after the other. */
  lemma {:induction false} StoredSplit(words: seq<u32>, pos: nat, a: seq<u32>, b: seq<u32>)
    requires Stored(words, pos, a + b)
    ensures Stored(words, pos, a) && Stored(words, pos + |a|, b)
    decreases |a|
  {
    if a == [] {
      assert a + b == b;
    } else {
      assert (a + b)[0] == a[0] && (a + b)[1..] == a[1..] + b;
      StoredSplit(words, pos + 1, a[1..], b);
    }
  }

  /** Pairs stored at `pos` are read back, and the cursor stops right after them. */
  lemma {:induction false} ReadPairsStored(words: seq<u32>, pos: nat, pairs: seq<(u32, u32)>)
    requires Stored(words, pos, PairWords(pairs))
    ensures ReadPairs(words, pos, |pairs|) == D.Some((pairs, pos + 2 * |pairs|))
  {
    var w := PairWords(pairs);
    StoredSlice(words, pos, w);
    var r := ReadPairs(words, pos, |pairs|);
    forall i | 0 <= i < |pairs| ensures r.value.0[i] == pairs[i] {
      assert words[pos + 2 * i] == w[2 * i];
      assert words[pos + 2 * i + 1] == w[2 * i + 1];
    }
    assert r.value.0 == pairs;
  }

  /** A function entry stored at `pos` is read back, and the cursor stops right after it. */
  lemma {:induction false} ReadFunctionStored(words: seq<u32>, pos: nat, f: FunctionDebugInfo, end: nat)
    requires FunctionEncodable(f) && Stored(words, pos, FunctionWords(f)) && end == pos + |FunctionWords(f)|
    ensures ReadFunction(words, pos) == D.Some((f, end))
  {
    var n := |f.localOffsets|;
    var p := pos + 2 + n;
    var entryWords := PairWords(f.machineCodeEntries);
    var front := [f.fncIndex, n as u32];
    var countWord := [|f.machineCodeEntries| as u32];
    assert FunctionWords(f) == front + (f.localOffsets + (countWord + entryWords));
    StoredSplit(words, pos, front, f.localOffsets + (countWord + entryWords));
    StoredSlice(words, pos, front);
    assert words[pos] == front[0] && words[pos + 1] == front[1];
    StoredSplit(words, pos + 2, f.localOffsets, countWord + entryWords);
    StoredSlice(words, pos + 2, f.localOffsets);
    StoredSplit(words, p, countWord, entryWords);
    StoredSlice(words, p, countWord);
    assert words[p] == countWord[0];
    ReadPairsStored(words, p + 1, f.machineCodeEntries);
  }

  /** Function entries stored at `pos` are read back, and the cursor stops right after them. */
  lemma {:induction false} ReadFunctionsStored(words: seq<u32>, pos: nat, fs: seq<FunctionDebugInfo>, end: nat)
    requires AllEncodable(fs) && Stored(words, pos, FunctionsWords(fs)) && end == pos + |FunctionsWords(fs)|
    ensures ReadFunctions(words, pos, |fs|) == D.Some((fs, end))
    decreases |fs|
  {
    if fs != [] {
      var head := FunctionWords(fs[0]);
      var tail := FunctionsWords(fs[1..]);
      var p := pos + |head|;
      StoredSplit(words, pos, head, tail);
      ReadFunctionStored(words, pos, fs[0], p);
      ReadFunctionsStored(words, p, fs[1..], end);
      ReadFunctionsStep(words, pos, |fs[1..]|, fs[0], p, fs[1..], end);
      assert [fs[0]] + fs[1..] == fs;
    }
  }

  /** Unfolding `ReadFunctions` once. */
  lemma {:induction false} ReadFunctionsStep(words: seq<u32>, pos: nat, n: nat, f: FunctionDebugInfo, p: nat,
                                             rest: seq<FunctionDebugInfo>, q: nat)
    requires ReadFunction(words, pos) == D.Some((f, p)) && ReadFunctions(words, p, n) == D.Some((rest, q))
    ensures ReadFunctions(words, pos, n + 1) == D.Some(([f] + rest, q))
  {
  }

  /** Reading the words the compiler writes gives back the debug map and stops right after it. */
  lemma {:induction false} DebugMapRoundTrip(m: DebugMap, after: seq<u32>)
    requires Encodable(m)
    ensures ReadDebugMap(DebugMapWords(m) + after) == D.Some((m, |DebugMapWords(m)|))
  {
    var mw := DebugMapWords(m);
    var words := mw + after;
    StoredRest(words, 0);
    assert words[0..] == mw + after;
    StoredSplit(words, 0, mw, after);
    ReadDebugMapStored(words, m, |mw|);
  }

  /** A debug map stored at the start of `words` is read back. */
  lemma {:induction false} ReadDebugMapStored(words: seq<u32>, m: DebugMap, end: nat)
    requires Encodable(m) && Stored(words, 0, DebugMapWords(m)) && end == |DebugMapWords(m)|
    ensures ReadDebugMap(words) == D.Some((m, end))
  {
    var p := 6 + 2 * |m.globals|;
    HeaderStored(words, m);
    ListsStored(words, m, p, end);
    ReadDebugMapStep(words, m, p, end);
  }

  /** The five header words and the count of globals, and where the lists sit. */
  lemma {:induction false} HeaderStored(words: seq<u32>, m: DebugMap)
    requires Encodable(m) && Stored(words, 0, DebugMapWords(m))
    ensures |DebugMapWords(m)| == 7 + 2 * |m.globals| + |FunctionsWords(m.functions)|
    ensures 6 <= |words| && words[5] as int == |m.globals|
    ensures words[0] == m.version && words[1] == m.lastFramePtrOffset && words[2] == m.actualLinMemSizeOffset
    ensures words[3] == m.linkDataStartOffset && words[4] == m.genericTrapHandlerOffset
    ensures Stored(words, 6, PairWords(m.globals) + ([|m.functions| as u32] + FunctionsWords(m.functions)))
  {
    var header := [m.version, m.lastFramePtrOffset, m.actualLinMemSizeOffset, m.linkDataStartOffset,
                   m.genericTrapHandlerOffset, |m.globals| as u32];
    var lists := PairWords(m.globals) + ([|m.functions| as u32] + FunctionsWords(m.functions));
    assert DebugMapWords(m) == header + lists;
    StoredSplit(words, 0, header, lists);
    StoredSlice(words, 0, header);
    assert words[0] == header[0] && words[1] == header[1] && words[2] == header[2];
    assert words[3] == header[3] && words[4] == header[4] && words[5] == header[5];
  }

  /** The globals and the functions stored after the header are read back. */
  lemma {:induction false} ListsStored(words: seq<u32>, m: DebugMap, p: nat, end: nat)
    requires Encodable(m) && p == 6 + 2 * |m.globals| && end == p + 1 + |FunctionsWords(m.functions)|
    requires Stored(words, 6, PairWords(m.globals) + ([|m.functions| as u32] + FunctionsWords(m.functions)))
    ensures ReadPairs(words, 6, |m.globals|) == D.Some((m.globals, p))
    ensures p < |words| && words[p] as int == |m.functions|
    ensures ReadFunctions(words, p + 1, |m.functions|) == D.Some((m.functions, end))
  {
    var countWord := [|m.functions| as u32];
    var fw := FunctionsWords(m.functions);
    StoredSplit(words, 6, PairWords(m.globals), countWord + fw);
    ReadPairsStored(words, 6, m.globals);
    StoredSplit(words, p, countWord, fw);
    StoredSlice(words, p, countWord);
    assert words[p] == countWord[0];
    ReadFunctionsStored(words, p + 1, m.functions, end);
  }

  /** Unfolding `ReadDebugMap` once. */
  lemma {:induction false} ReadDebugMapStep(words: seq<u32>, m: DebugMap, p: nat, q: nat)
    requires 6 <= |words| && p < |words|
    requires words[0] == m.version && words[1] == m.lastFramePtrOffset && words[2] == m.actualLinMemSizeOffset
    requires words[3] == m.linkDataStartOffset && words[4] == m.genericTrapHandlerOffset
    requires words[5] as int == |m.globals| && ReadPairs(words, 6, |m.globals|) == D.Some((m.globals, p))
    requires words[p] as int == |m.functions| && ReadFunctions(words, p + 1, |m.functions|) == D.Some((m.functions, q))
    ensures ReadDebugMap(words) == D.Some((m, q))
  {
  }
}
