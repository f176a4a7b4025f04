/**
  Fixed-width integers of the compiler and its runtime.

  The source computes with `uint8_t`, `uint16_t`, `uint32_t`, `int32_t` and
  `uint64_t`. Dafny integers are unbounded, so every width used by the model
  is a subset type here, and every wrap-around the source relies on is
  written out as an explicit modulus.
*/
module UInt {
  const TWO8: nat := 0x100
  const TWO16: nat := 0x1_0000
  const TWO32: nat := 0x1_0000_0000
  const TWO64: nat := 0x1_0000_0000_0000_0000

  type u8 = x: int | 0 <= x < 0x100
  type u16 = x: int | 0 <= x < 0x1_0000
  type u32 = x: int | 0 <= x < 0x1_0000_0000
  type u64 = x: int | 0 <= x < 0x1_0000_0000_0000_0000
  type i32 = x: int | -0x8000_0000 <= x < 0x8000_0000
  type i64 = x: int | -0x8000_0000_0000_0000 <= x < 0x8000_0000_0000_0000

  const U32_MAX: u32 := 0xFFFF_FFFF

  /** `uint32_t` arithmetic: the mathematical value reduced modulo 2^32. */
  function Wrap32(x: int): u32 {
    x % TWO32
  }

  /** `uint64_t` arithmetic: the mathematical value reduced modulo 2^64. */
  function Wrap64(x: int): u64 {
    x % TWO64
  }

  /** `static_cast<int32_t>` of a `uint32_t`: two's complement reading. */
  function AsI32(x: u32): i32 {
    if x < 0x8000_0000 then x else x - TWO32
  }

  /** `static_cast<uint32_t>` of an `int32_t`. */
  function AsU32(x: i32): u32 {
    if x >= 0 then x else x + TWO32
  }

  /** `bit_cast<int64_t>` of a `uint64_t`. */
  function AsI64(x: u64): i64 {
    if x < 0x8000_0000_0000_0000 then x else x - TWO64
  }

  /** The two casts between `int32_t` and `uint32_t` undo each other. */
  lemma {:induction false} AsI32AsU32(x: u32, y: i32)
    ensures AsU32(AsI32(x)) == x
    ensures AsI32(AsU32(y)) == y
    ensures AsI32(x) % TWO32 == x
  {
  }

  function Pow2(n: nat): (r: nat)
    ensures r >= 1
  {
    if n == 0 then 1 else 2 * Pow2(n - 1)
  }

  lemma {:induction false} Pow2Add(a: nat, b: nat)
    ensures Pow2(a + b) == Pow2(a) * Pow2(b)
  {
    if a > 0 {
      Pow2Add(a - 1, b);
      assert Pow2(a + b) == 2 * Pow2(a - 1 + b);
    }
  }

  lemma {:induction false} Pow2Values()
    ensures Pow2(0) == 1 && Pow2(1) == 2 && Pow2(2) == 4 && Pow2(3) == 8
    ensures Pow2(4) == 16 && Pow2(5) == 32 && Pow2(6) == 64 && Pow2(7) == 128
    ensures Pow2(8) == 256 && Pow2(12) == 4096 && Pow2(16) == TWO16
  {
    assert Pow2(8) == 256;
    assert Pow2(12) == 4096;
    assert Pow2(16) == TWO16;
  }

  /** 2^p * 2^(32-p) == 2^32. */
  lemma {:induction false} Pow2Split32(p: nat)
    requires p <= 32
    ensures Pow2(p) * Pow2(32 - p) == TWO32
  {
    Pow2Values();
    Pow2Add(16, 16);
    Pow2Add(p, 32 - p);
  }

  lemma {:induction false} MulBounds(d: int, k: int)
    ensures d > 0 && k >= 1 ==> d * k >= d
    ensures d > 0 && k <= -1 ==> d * k <= -d
  {
    if d > 0 && k >= 1 {
      assert d * k == d + d * (k - 1);
    }
    if d > 0 && k <= -1 {
      assert d * k == -d + d * (k + 1);
    }
  }

  /** Division is unique: the quotient and remainder are determined. */
  lemma {:induction false} DivModUnique(x: int, d: int, q: int, r: int)
    requires d > 0 && 0 <= r < d && x == d * q + r
    ensures x / d == q && x % d == r
  {
    MulBounds(d, x / d - q);
  }

  /** Euclidean division of naturals: quotient and remainder. */
  lemma {:induction false} DivModParts(x: nat, d: nat)
    requires d > 0
    ensures x == d * (x / d) + x % d && 0 <= x % d < d && x / d >= 0
  {
  }

  /** Splitting a remainder modulo a * b into two digits. */
  lemma {:induction false} ModSplit(x: nat, a: nat, b: nat)
    requires a > 0 && b > 0
    ensures x % (a * b) == x % a + a * ((x / a) % b)
    ensures x / (a * b) == (x / a) / b
  {
    var q := x / a;
    var r := x % a;
    var q2 := q / b;
    var r2 := q % b;
    TwoDigits(a, b, q2, r2, r);
    DivModUnique(x, a * b, q2, a * r2 + r);
  }

  lemma {:induction false} TwoDigits(a: nat, b: nat, q2: int, r2: nat, r: nat)
    requires r < a && r2 < b
    ensures a * (b * q2 + r2) + r == (a * b) * q2 + (a * r2 + r)
    ensures a * r2 + r < a * b
  {
    assert a * (b * q2 + r2) == a * (b * q2) + a * r2;
    assert a * (b * q2) == (a * b) * q2;
    MulMono(a, r2, b - 1);
    assert a * (b - 1) == a * b - a;
  }

  lemma {:induction false} MulMono(a: nat, x: nat, y: nat)
    requires x <= y
    ensures a * x <= a * y
  {
    assert a * y == a * x + a * (y - x);
  }

  /** A remainder modulo a multiple of m keeps the remainder modulo m. */
  lemma {:induction false} ModOfModMultiple(x: int, m: nat, k: nat, n: nat)
    requires m > 0 && k > 0 && n == m * k
    ensures (x % n) % m == x % m
  {
    var q := x / n;
    var r := x % n;
    assert x == m * (k * q) + r;
    var q1 := r / m;
    var r1 := r % m;
    assert x == m * (k * q + q1) + r1;
    DivModUnique(x, m, k * q + q1, r1);
  }

  /**
    `roundUpToPow2(value, pow2)`: a value whose low `pow2` bits are not all zero
    is moved to the next multiple of 2^pow2, computed in `uint32_t`, so a value
    within 2^pow2 of 2^32 wraps to 0; an aligned value is returned unchanged.
  */
  function RoundUpToPow2(v: u32, p: nat): (r: u32)
    requires p < 32
    ensures r % Pow2(p) == 0
    ensures v % Pow2(p) == 0 ==> r == v
    ensures v + Pow2(p) <= TWO32 ==> v <= r < v + Pow2(p)
  {
    var m := Pow2(p);
    if v % m != 0 then
      var w := Wrap32(v + m);
      RoundUpFacts(v, p, m, w);
      w - w % m
    else
      v
  }

  /** Without overflow, the rounded value is the least multiple of 2^p not below the input. */
  lemma {:induction false} RoundUpLeast(v: u32, p: nat, k: nat)
    requires p < 32 && v + Pow2(p) <= TWO32 && v <= k && k % Pow2(p) == 0
    ensures RoundUpToPow2(v, p) <= k
  {
    var m := Pow2(p);
    if v % m != 0 {
      RoundUpFacts(v, p, m, Wrap32(v + m));
    }
  }

  lemma {:induction false} RoundUpFacts(v: u32, p: nat, m: nat, w: nat)
    requires p < 32 && m == Pow2(p) && v % m != 0 && w == Wrap32(v + m)
    ensures 0 <= w - w % m < TWO32 && (w - w % m) % m == 0
    ensures v + m <= TWO32 ==> v <= w - w % m < v + m
    ensures v + m <= TWO32 ==> forall k: nat :: v <= k && k % m == 0 ==> w - w % m <= k
  {
    WrapKeepsLowBits(v, p);
    RoundedDown(m, w, w - w % m);
    if v + m <= TWO32 {
      Pow2Split32(p);
      DivModUnique(TWO32, m, Pow2(32 - p), 0);
      if v + m == TWO32 {
        SumModSelf(v, m);
      }
      DivModUnique(v + m, TWO32, 0, v + m);
      RoundedUpBounds(v, m, w, w - w % m);
      RoundedUpLeast(v, m, w, w - w % m);
    }
  }

  lemma {:induction false} RoundedDown(m: nat, w: nat, r: int)
    requires m > 0 && r == w - w % m
    ensures r >= 0 && r % m == 0
  {
    assert r == m * (w / m);
    DivModUnique(r, m, w / m, 0);
  }

  lemma {:induction false} RoundedUpBounds(v: nat, m: nat, w: nat, r: int)
    requires m > 0 && v % m != 0 && w % m == v % m && r == w - w % m && w == v + m
    ensures v <= r < v + m
  {
  }

  lemma {:induction false} RoundedUpLeast(v: nat, m: nat, w: nat, r: int)
    requires m > 0 && v % m != 0 && w % m == v % m && r == w - w % m && w == v + m
    ensures forall k: nat :: v <= k && k % m == 0 ==> r <= k
  {
    forall k: nat | v <= k && k % m == 0 ensures r <= k {
      LeastMultiple(v, m, k, v / m, v % m, k / m);
    }
  }

  lemma {:induction false} LeastMultiple(v: nat, m: nat, k: nat, qv: int, rv: int, qk: int)
    requires m > 0 && v == m * qv + rv && 0 < rv < m && k == m * qk && v <= k
    ensures k >= m * qv + m
  {
    MulBounds(m, qk - qv);
    assert m * (qk - qv) == k - m * qv;
  }

  /** Adding 2^p and reducing modulo 2^32 keeps the low p bits. */
  lemma {:induction false} WrapKeepsLowBits(v: u32, p: nat)
    requires p < 32
    ensures Wrap32(v + Pow2(p)) % Pow2(p) == v % Pow2(p)
  {
    var m := Pow2(p);
    Pow2Split32(p);
    ModOfModMultiple(v + m, m, Pow2(32 - p), TWO32);
    SumModSelf(v, m);
  }

  lemma {:induction false} SumModSelf(v: nat, m: nat)
    requires m > 0
    ensures (v + m) % m == v % m
  {
    assert v + m == m * (v / m + 1) + v % m;
    DivModUnique(v + m, m, v / m + 1, v % m);
  }

  /** Rounding up twice is rounding up once. */
  lemma {:induction false} RoundUpIdempotent(v: u32, p: nat)
    requires p < 32
    ensures RoundUpToPow2(RoundUpToPow2(v, p), p) == RoundUpToPow2(v, p)
  {
  }

  /** Reducing an intermediate result modulo 2^32 does not change the final reduction. */
  lemma {:induction false} WrapAdd(a: int, b: int)
    ensures Wrap32(Wrap32(a) + b) == Wrap32(a + b)
  {
    DivModUnique(a % TWO32 + b, TWO32, (a + b) / TWO32 - a / TWO32, (a + b) % TWO32);
  }

  /** The same for `uint64_t`. */
  lemma {:induction false} Wrap64Add(a: int, b: int)
    ensures Wrap64(Wrap64(a) + b) == Wrap64(a + b)
  {
    DivModUnique(a % TWO64 + b, TWO64, (a + b) / TWO64 - a / TWO64, (a + b) % TWO64);
  }

  /** Adding a multiple of 2^32 does not change the reduction. */
  lemma {:induction false} WrapShift(a: int, k: int)
    ensures Wrap32(a + TWO32 * k) == Wrap32(a)
  {
    DivModUnique(a + TWO32 * k, TWO32, a / TWO32 + k, a % TWO32);
  }
}
