/**
 Machine integers and little-endian bytes.

 Rust's fixed-width integers are integer ranges here; every operation that wraps,
 saturates or truncates in the source says so explicitly.
 */
module Machine {
  type byte = x: int | 0 <= x < 0x100
  type u32 = x: int | 0 <= x < 0x1_0000_0000
  type u64 = x: int | 0 <= x < 0x1_0000_0000_0000_0000
  type i32 = x: int | -0x8000_0000 <= x < 0x8000_0000
  type Bytes = seq<byte>

  const MAX_U32: u32 := 0xFFFF_FFFF
  const MAX_U64: u64 := 0xFFFF_FFFF_FFFF_FFFF

  datatype Option<+T> = None | Some(value: T)

  function Min(a: int, b: int): int { if a <= b then a else b }

  function Max(a: int, b: int): int { if a <= b then b else a }

  /** Rust's `clamp`. */
  function Clamp(x: int, lo: int, hi: int): int
    requires lo <= hi
  {
    if x < lo then lo else if x > hi then hi else x
  }

  /** `as i32` on a wider integer: keep the low 32 bits, read as two's complement. */
  function Wrap32(x: int): i32 {
    (x + 0x8000_0000) % 0x1_0000_0000 - 0x8000_0000
  }

  /** Saturation to the `i32` range. */
  function Saturate32(x: int): i32 {
    Clamp(x, -0x8000_0000, 0x7FFF_FFFF)
  }

  /** `u64::saturating_add`. */
  function SaturatingAdd64(a: u64, b: u64): u64 {
    Min(a + b, MAX_U64)
  }

  /** The unsigned reading of an `i32`'s 32 bits, and back. */
  function ToBits32(x: i32): u32 { x % 0x1_0000_0000 }

  function FromBits32(u: u32): i32 { if u < 0x8000_0000 then u else u - 0x1_0000_0000 }

  lemma Bits32RoundTrip(x: i32, u: u32)
    ensures FromBits32(ToBits32(x)) == x
    ensures ToBits32(FromBits32(u)) == u
  {
  }

  /** Quotient and remainder are determined by their defining equation. */
  lemma DivModUnique(q: nat, r: nat, d: nat)
    requires r < d
    ensures (q * d + r) / d == q && (q * d + r) % d == r
  {
    var k := q * d + r;
    var q', r' := k / d, k % d;
    var delta := q' - q;
    assert delta * d == r - r' by {
      assert q' * d + r' == k;
      assert delta * d == q' * d - q * d;
    }
    MulGrows(delta, d);
  }

  lemma MulGrows(x: int, d: nat)
    ensures x >= 1 ==> x * d >= d
    ensures x <= -1 ==> x * d + d <= 0
  {
    if x >= 1 {
      assert (x - 1) * d >= 0;
    } else if x <= -1 {
      assert (-x - 1) * d >= 0;
    }
  }

  /** Among n numbers in a row one leaves the remainder r, */
  lemma NextCongruent(x: nat, n: nat, r: nat) returns (y: nat)
    requires r < n
    ensures x <= y < x + n && y % n == r
  {
    var k, at := x / n, x % n;
    assert x == k * n + at;
    var q := if r >= at then k else k + 1;
    assert (k + 1) * n == k * n + n;
    DivModUnique(q, r, n);
    y := q * n + r;
  }

  /** and only one. */
  lemma OneCongruent(x: nat, y: nat, n: nat)
    requires n > 0 && x % n == y % n && x < y + n && y < x + n
    ensures x == y
  {
    var p, q, r := x / n, y / n, x % n;
    assert x == p * n + r && y == q * n + r;
    SameMultiple(p, q, n);
  }

  lemma SameMultiple(p: int, q: int, n: nat)
    requires p * n < q * n + n && q * n < p * n + n
    ensures p == q
  {
    assert (p - q) * n == p * n - q * n;
    MulGrows(p - q, n);
  }

  /** 256 to the power n. */
  function Pow256(n: nat): nat
    ensures Pow256(n) > 0
  {
    if n == 0 then 1 else 256 * Pow256(n - 1)
  }

  lemma Pow256Values()
    ensures Pow256(4) == 0x1_0000_0000
    ensures Pow256(8) == 0x1_0000_0000_0000_0000
  {
    assert Pow256(1) == 256;
    assert Pow256(2) == 0x1_0000;
    assert Pow256(3) == 0x100_0000;
    assert Pow256(4) == 0x1_0000_0000;
    assert Pow256(5) == 0x100_0000_0000;
    assert Pow256(6) == 0x1_0000_0000_0000;
    assert Pow256(7) == 0x100_0000_0000_0000;
  }

  /** `to_le_bytes`, least significant byte first. */
  function LeBytes(x: nat, n: nat): (s: Bytes)
    ensures |s| == n
  {
    if n == 0 then [] else [x % 256] + LeBytes(x / 256, n - 1)
  }

  /** `from_le_bytes`. */
  function LeValue(s: Bytes): nat {
    if s == [] then 0 else s[0] + 256 * LeValue(s[1..])
  }

  lemma {:induction false} LeValueOfBytes(x: nat, n: nat)
    requires x < Pow256(n)
    ensures LeValue(LeBytes(x, n)) == x
  {
    if n > 0 {
      LeValueOfBytes(x / 256, n - 1);
      assert LeBytes(x, n)[1..] == LeBytes(x / 256, n - 1);
    }
  }

  lemma {:induction false} LeBytesOfValue(s: Bytes)
    ensures LeValue(s) < Pow256(|s|)
    ensures LeBytes(LeValue(s), |s|) == s
  {
    if s != [] {
      LeBytesOfValue(s[1..]);
      assert LeValue(s) / 256 == LeValue(s[1..]);
    }
  }

  /** The four-byte and eight-byte fields the codecs use. */
  function PutU32(x: u32): (s: Bytes)
    ensures |s| == 4
  {
    LeBytes(x, 4)
  }

  function PutU64(x: u64): (s: Bytes)
    ensures |s| == 8
  {
    LeBytes(x, 8)
  }

  function PutI32(x: i32): (s: Bytes)
    ensures |s| == 4
  {
    PutU32(ToBits32(x))
  }

  function GetU32(s: Bytes): u32
    requires |s| == 4
  {
    LeBytesOfValue(s); Pow256Values();
    LeValue(s)
  }

  function GetU64(s: Bytes): u64
    requires |s| == 8
  {
    LeBytesOfValue(s); Pow256Values();
    LeValue(s)
  }

  function GetI32(s: Bytes): i32
    requires |s| == 4
  {
    FromBits32(GetU32(s))
  }

  lemma U32RoundTrip(x: u32)
    ensures GetU32(PutU32(x)) == x
  {
    Pow256Values();
    LeValueOfBytes(x, 4);
  }

  lemma U64RoundTrip(x: u64)
    ensures GetU64(PutU64(x)) == x
  {
    Pow256Values();
    LeValueOfBytes(x, 8);
  }

  lemma I32RoundTrip(x: i32)
    ensures GetI32(PutI32(x)) == x
  {
    hide LeBytes, LeValue;
    U32RoundTrip(ToBits32(x));
    Bits32RoundTrip(x, ToBits32(x));
  }

  lemma U32Reencodes(s: Bytes)
    requires |s| == 4
    ensures PutU32(GetU32(s)) == s
  {
    LeBytesOfValue(s);
  }

  lemma I32Reencodes(s: Bytes)
    requires |s| == 4
    ensures PutI32(GetI32(s)) == s
  {
    hide LeBytes, LeValue;
    U32Reencodes(s);
    Bits32RoundTrip(0, GetU32(s));
  }

  /** A 32-byte hash value. */
  type Digest = d: Bytes | |d| == 32 witness LeBytes(0, 32)
}
