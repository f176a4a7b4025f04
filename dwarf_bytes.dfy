/**
  Byte-level encoders of the DWARF extension: little-endian fixed-width
  fields (`pushLE32`, `pushLE64`, `writeLE32`) and the variable-length
  LEB128 integers of section 7.6 of the DWARF 5 standard
  (`encodeULEB128`, `encodeSLEB128`).

  Every encoder appends to (or patches) a byte vector the caller owns; it is
  modelled as a method taking the vector's contents and returning the new
  contents. Each encoder is paired with a decoder and a round-trip lemma.
*/
module DwarfBytes {
  import opened UInt

  datatype Option<T> = None | Some(value: T)

  // ---------------------------------------------------------------------
  // Little-endian fixed-width fields
  // ---------------------------------------------------------------------

  function Pow256(k: nat): (r: nat)
    ensures r >= 1
  {
    if k == 0 then 1 else 256 * Pow256(k - 1)
  }

  /** `static_cast<uint8_t>(v >> 8k)`: byte k of v, least significant first. */
  function ByteOf(v: nat, k: nat): u8 {
    (v / Pow256(k)) % 256
  }

  /** The n low bytes of v, least significant first. */
  function LEBytes(v: nat, n: nat): (r: seq<u8>)
    ensures |r| == n
    decreases n, 1
  {
    if n == 0 then [] else LowByteThen(v, n)
  }

  /** The low byte of v, then the n - 1 bytes above it. */
  function LowByteThen(v: nat, n: nat): (r: seq<u8>)
    requires n > 0
    ensures |r| == n
    decreases n, 0
  {
    [v % 256] + LEBytes(v / 256, n - 1)
  }

  /** Reads a little-endian unsigned integer of |bs| bytes. */
  function ReadLE(bs: seq<u8>): nat {
    if bs == [] then 0 else bs[0] + 256 * ReadLE(bs[1..])
  }

  lemma {:induction false} LEBytesAt(v: nat, n: nat, k: nat)
    requires k < n
    ensures LEBytes(v, n)[k] == ByteOf(v, k)
  {
    if k > 0 {
      LEBytesAt(v / 256, n - 1, k - 1);
      ModSplit(v, 256, Pow256(k - 1));
    }
  }

  lemma {:induction false} LEBytesAll(v: nat, n: nat)
    ensures forall k :: 0 <= k < n ==> LEBytes(v, n)[k] == ByteOf(v, k)
  {
    forall k | 0 <= k < n ensures LEBytes(v, n)[k] == ByteOf(v, k) {
      LEBytesAt(v, n, k);
    }
  }

  /** Decoding the n little-endian bytes of v gives v modulo 256^n. */
  lemma {:induction false} LERoundTrip(v: nat, n: nat)
    ensures ReadLE(LEBytes(v, n)) == v % Pow256(n)
  {
    if n > 0 {
      LERoundTrip(v / 256, n - 1);
      ModSplit(v, 256, Pow256(n - 1));
      assert LEBytes(v, n)[1..] == LEBytes(v / 256, n - 1);
    }
  }

  /** The n little-endian bytes of a value below 256^n decode to the value itself. */
  lemma {:induction false} ReadLESmall(v: nat, n: nat)
    requires v < Pow256(n)
    ensures ReadLE(LEBytes(v, n)) == v
  {
    LERoundTrip(v, n);
    DivModUnique(v, Pow256(n), 0, v);
  }

  lemma {:induction false} Pow256Values()
    ensures Pow256(4) == TWO32 && Pow256(8) == TWO64
  {
    assert Pow256(4) == TWO32;
    assert Pow256(8) == TWO64;
  }

  /**
    `pushLE32`: appends the value, truncated to `uint32_t`, as 4 bytes,
    least significant first.
  */
  method PushLE32(value: nat, result: seq<u8>) returns (r: seq<u8>)
    ensures |r| == |result| + 4 && r[..|result|] == result
    ensures r[|result|..] == LEBytes(value % TWO32, 4)
  {
    var v := value % TWO32;
    r := result + [ByteOf(v, 0), ByteOf(v, 1), ByteOf(v, 2), ByteOf(v, 3)];
    LEBytesAll(v, 4);
    assert r[|result|..] == LEBytes(v, 4);
  }

  /**
    `pushLE64`: appends the value, truncated to `uint64_t`, as 8 bytes,
    least significant first.
  */
  method PushLE64(value: nat, result: seq<u8>) returns (r: seq<u8>)
    ensures |r| == |result| + 8 && r[..|result|] == result
    ensures r[|result|..] == LEBytes(value % TWO64, 8)
  {
    var v := value % TWO64;
    r := result + [ByteOf(v, 0), ByteOf(v, 1), ByteOf(v, 2), ByteOf(v, 3),
                   ByteOf(v, 4), ByteOf(v, 5), ByteOf(v, 6), ByteOf(v, 7)];
    LEBytesAll(v, 8);
    assert r[|result|..] == LEBytes(v, 8);
  }

  /**
    `writeLE32`: overwrites bytes offset..offset+3 with the value truncated to
    `uint32_t`, least significant first; the length and every other byte stay.
    The source asserts that the four bytes lie inside the vector.
  */
  method WriteLE32(value: nat, result: seq<u8>, offset: nat) returns (r: seq<u8>)
    requires offset + 4 <= |result|
    ensures |r| == |result|
    ensures r[..offset] == result[..offset] && r[offset + 4..] == result[offset + 4..]
    ensures r[offset..offset + 4] == LEBytes(value % TWO32, 4)
  {
    var v := value % TWO32;
    r := result;
    r := r[offset + 0 := ByteOf(v, 0)];
    r := r[offset + 1 := ByteOf(v, 1)];
    r := r[offset + 2 := ByteOf(v, 2)];
    r := r[offset + 3 := ByteOf(v, 3)];
    LEBytesAll(v, 4);
    assert r[offset..offset + 4] == LEBytes(v, 4);
  }

  // ---------------------------------------------------------------------
  // Unsigned LEB128
  // ---------------------------------------------------------------------

  /** The ULEB128 bytes of v: 7-bit groups, low group first, bit 7 set on all but the last. */
  function ULeb(v: nat): (r: seq<u8>)
    ensures |r| >= 1
  {
    if v < 128 then [v] else [v % 128 + 128] + ULeb(v / 128)
  }

  /**
    Reads one ULEB128 number from the front of bs: its value and the number of
    bytes it took, or None when bs ends before a byte with bit 7 clear.
  */
  function ReadULeb(bs: seq<u8>): (r: Option<(nat, nat)>)
    ensures r.Some? ==> 1 <= r.value.1 <= |bs|
  {
    if bs == [] then None
    else if bs[0] < 128 then Some((bs[0], 1))
    else match ReadULeb(bs[1..])
      case None => None
      case Some(p) => Some((bs[0] - 128 + 128 * p.0, p.1 + 1))
  }

  /** Reading back the ULEB128 bytes of v yields v, whatever follows them. */
  lemma {:induction false} ULebRoundTrip(v: nat, rest: seq<u8>)
    ensures ReadULeb(ULeb(v) + rest) == Some((v, |ULeb(v)|))
  {
    if v >= 128 {
      ULebRoundTrip(v / 128, rest);
      assert (ULeb(v) + rest)[1..] == ULeb(v / 128) + rest;
    }
  }

  /** Every byte but the last has bit 7 set; the last has it clear. */
  lemma {:induction false} ULebContinuation(v: nat)
    ensures forall i :: 0 <= i < |ULeb(v)| - 1 ==> ULeb(v)[i] >= 128
    ensures ULeb(v)[|ULeb(v)| - 1] < 128
  {
    if v >= 128 {
      ULebContinuation(v / 128);
    }
  }

  function Pow128(k: nat): (r: nat)
    ensures r >= 1
  {
    if k == 0 then 1 else 128 * Pow128(k - 1)
  }

  /** A value below 128^k takes at most k bytes. */
  lemma {:induction false} ULebLengthBound(v: nat, k: nat)
    requires k >= 1 && v < Pow128(k)
    ensures |ULeb(v)| <= k
  {
    if v >= 128 {
      ULebLengthBound(v / 128, k - 1);
    }
  }

  /** A `uint32_t` takes 1 to 5 bytes. */
  lemma {:induction false} ULebLength32(v: u32)
    ensures 1 <= |ULeb(v)| <= 5
  {
    assert Pow128(5) == 0x8_0000_0000;
    ULebLengthBound(v, 5);
  }

  /**
    `encodeULEB128`: the do-while loop emits the low 7 bits of the value,
    with bit 7 set when more bits remain, until the value is 0.
  */
  method EncodeULEB128(value: u32, bytes: seq<u8>) returns (r: seq<u8>)
    ensures r == bytes + ULeb(value)
  {
    r := bytes;
    var v: nat := value;
    var done := false;
    while !done
      invariant !done ==> r + ULeb(v) == bytes + ULeb(value)
      invariant done ==> r == bytes + ULeb(value)
      decreases v, !done
    {
      var b := v % 128;
      v := v / 128;
      if v != 0 {
        b := b + 128;
      } else {
        done := true;
      }
      r := r + [b];
    }
  }

  // ---------------------------------------------------------------------
  // Signed LEB128
  // ---------------------------------------------------------------------

  lemma {:induction false} ShiftShrinks(v: int)
    requires v != 0 && v != -1
    ensures (if v / 128 >= 0 then v / 128 else -(v / 128)) < (if v >= 0 then v else -v)
  {
  }

  /**
    The SLEB128 bytes of v: 7-bit groups of the two's complement value, low
    first, ending at the first group after which the arithmetic shift leaves
    only sign bits that agree with bit 6 of that group.
  */
  function SLeb(v: int): (r: seq<u8>)
    ensures |r| >= 1
    decreases if v >= 0 then v else -v
  {
    var b := v % 128;
    var rest := v / 128;
    if (rest == 0 && b < 64) || (rest == -1 && b >= 64) then [b]
    else
      ShiftShrinks(v);
      [b + 128] + SLeb(rest)
  }

  /**
    Reads one SLEB128 number: the 7-bit groups up to the first byte with bit 7
    clear, sign-extended from bit 6 of that byte.
  */
  function ReadSLeb(bs: seq<u8>): (r: Option<(int, nat)>)
    ensures r.Some? ==> 1 <= r.value.1 <= |bs|
  {
    if bs == [] then None
    else if bs[0] < 128 then Some((if bs[0] >= 64 then bs[0] as int - 128 else bs[0] as int, 1))
    else match ReadSLeb(bs[1..])
      case None => None
      case Some(p) => Some((bs[0] - 128 + 128 * p.0, p.1 + 1))
  }

  /** Reading back the SLEB128 bytes of v yields v, whatever follows them. */
  lemma {:induction false} SLebRoundTrip(v: int, rest: seq<u8>)
    ensures ReadSLeb(SLeb(v) + rest) == Some((v, |SLeb(v)|))
    decreases if v >= 0 then v else -v
  {
    var b := v % 128;
    var q := v / 128;
    if !((q == 0 && b < 64) || (q == -1 && b >= 64)) {
      ShiftShrinks(v);
      SLebRoundTrip(q, rest);
      assert (SLeb(v) + rest)[1..] == SLeb(q) + rest;
    }
  }

  /** Every byte but the last has bit 7 set; the last has it clear. */
  lemma {:induction false} SLebContinuation(v: int)
    ensures forall i :: 0 <= i < |SLeb(v)| - 1 ==> SLeb(v)[i] >= 128
    ensures SLeb(v)[|SLeb(v)| - 1] < 128
    decreases if v >= 0 then v else -v
  {
    var b := v % 128;
    var q := v / 128;
    if !((q == 0 && b < 64) || (q == -1 && b >= 64)) {
      ShiftShrinks(v);
      SLebContinuation(q);
    }
  }

  /** A value in [-64 * 128^(k-1), 64 * 128^(k-1)) takes at most k bytes. */
  lemma {:induction false} SLebLengthBound(v: int, k: nat)
    requires k >= 1 && -64 * Pow128(k - 1) <= v < 64 * Pow128(k - 1)
    ensures |SLeb(v)| <= k
    decreases k
  {
    var b := v % 128;
    var q := v / 128;
    if !((q == 0 && b < 64) || (q == -1 && b >= 64)) {
      SLebLengthBound(q, k - 1);
    }
  }

  /** An `int32_t` takes 1 to 5 bytes. */
  lemma {:induction false} SLebLength32(v: i32)
    ensures 1 <= |SLeb(v)| <= 5
  {
    assert 64 * Pow128(4) == 0x4_0000_0000;
    SLebLengthBound(v, 5);
  }

  /**
    `encodeSLEB128`: emits the low 7 bits, shifts arithmetically by 7, and
    continues while the remaining value and bit 6 of the emitted group do not
    both show the final sign.
  */
  method EncodeSLEB128(value: i32, bytes: seq<u8>) returns (r: seq<u8>)
    ensures r == bytes + SLeb(value)
  {
    r := bytes;
    var v: int := value;
    var more := true;
    while more
      invariant more ==> r + SLeb(v) == bytes + SLeb(value)
      invariant !more ==> r == bytes + SLeb(value)
      decreases if v >= 0 then v else -v, more
    {
      var b := v % 128;
      var old_v := v;
      v := v / 128;
      more := (v != 0 || b >= 64) && (v != -1 || b < 64);
      if more {
        ShiftShrinks(old_v);
        b := b + 128;
      }
      r := r + [b];
    }
  }
}
