/**
 64-bit words as the proof-of-work kernels use them (crates/meshhash-cpu/src/lib.rs, fusion.rs,
 apps/mesh-miner-gpu/cuda/meshhash_mix.cu): wrapping arithmetic, shifts and rotations, bitwise
 operations, and little-endian loads and stores at masked addresses.
 */
module Words {
  import opened Machine

  const TWO64: nat := 0x1_0000_0000_0000_0000

  function Wrap64(x: nat): u64 { x % TWO64 }

  /** `wrapping_add` and `wrapping_mul`. */
  function Add64(a: nat, b: nat): u64 { Wrap64(a + b) }

  function Mul64(a: u64, b: u64): u64 {
    TimesNonNegative(a, b);
    Wrap64(a * b)
  }

  lemma TimesNonNegative(a: nat, b: nat)
    ensures a * b >= 0
  {
  }

  /** `wrapping_sub`. */
  function Sub64(a: u64, b: u64): u64 { Wrap64(a + TWO64 - b) }

  function ShiftLeft(x: nat, n: nat): nat {
    if n == 0 then x else 2 * ShiftLeft(x, n - 1)
  }

  function ShiftRight(x: nat, n: nat): nat {
    if n == 0 then x else ShiftRight(x, n - 1) / 2
  }

  function Rotl(x: u64, n: nat): u64
    requires 1 <= n <= 63
  {
    Wrap64(ShiftLeft(x, n) + ShiftRight(x, 64 - n))
  }

  function Rotr(x: u64, n: nat): u64
    requires 1 <= n <= 63
  {
    Rotl(x, 64 - n)
  }

  /** Exclusive or, and conjunction, of the low n bits. */
  function XorBits(a: nat, b: nat, n: nat): nat {
    if n == 0 then 0 else (if a % 2 == b % 2 then 0 else 1) + 2 * XorBits(a / 2, b / 2, n - 1)
  }

  function AndBits(a: nat, b: nat, n: nat): (r: nat)
    ensures r <= b
  {
    if n == 0 then 0 else (if a % 2 == 1 && b % 2 == 1 then 1 else 0) + 2 * AndBits(a / 2, b / 2, n - 1)
  }

  function OrBits(a: nat, b: nat, n: nat): nat {
    if n == 0 then 0 else (if a % 2 == 1 || b % 2 == 1 then 1 else 0) + 2 * OrBits(a / 2, b / 2, n - 1)
  }

  function And(a: u64, b: u64): u64 { AndBits(a, b, 64) }

  function Or(a: u64, b: u64): u64 { Wrap64(OrBits(a, b, 64)) }

  function Xor(a: u64, b: u64): u64 { Wrap64(XorBits(a, b, 64)) }

  /** `(x & (len - 8)) & ~7`: every address is 8-aligned and has its whole word in the pad. */
  function Address(x: u64, len: nat): (i: nat)
    requires 8 <= len < TWO64
    ensures i % 8 == 0 && i + 8 <= len
  {
    var masked := AndBits(x, len - 8, 64);
    masked - masked % 8
  }

  /** The word at byte x, and the pad with that word replaced. */
  function Load(pad: Bytes, x: nat): u64
    requires x + 8 <= |pad|
  {
    GetU64(pad[x..x + 8])
  }

  function Store(pad: Bytes, x: nat, v: u64): (r: Bytes)
    requires x + 8 <= |pad|
    ensures |r| == |pad|
  {
    pad[..x] + PutU64(v) + pad[x + 8..]
  }

  lemma LoadOfStore(pad: Bytes, x: nat, v: u64)
    requires x + 8 <= |pad|
    ensures Load(Store(pad, x, v), x) == v
  {
    hide PutU64, GetU64;
    U64RoundTrip(v);
    assert Store(pad, x, v)[x..x + 8] == PutU64(v);
  }

  // ---------- memory ----------

  method StoreWord(dev: array<byte>, x: nat, v: u64)
    requires x + 8 <= dev.Length
    modifies dev
    ensures dev[..] == Store(old(dev[..]), x, v)
  {
    hide PutU64;
    var word := PutU64(v);
    for k := 0 to 8
      invariant forall j :: 0 <= j < k ==> dev[x + j] == word[j]
      invariant forall p :: 0 <= p < dev.Length && !(x <= p < x + k) ==> dev[p] == old(dev[p])
    {
      dev[x + k] := word[k];
    }
  }

  /** Storing inside a window of the buffer is storing in the window. */
  lemma StoreInWindow(dev: Bytes, base: nat, len: nat, x: nat, v: u64)
    requires base + len <= |dev| && x + 8 <= len
    ensures Store(dev, base + x, v)[base..base + len] == Store(dev[base..base + len], x, v)
    ensures forall p :: 0 <= p < |dev| && !(base <= p < base + len) ==> Store(dev, base + x, v)[p] == dev[p]
  {
    hide PutU64;
    var all, w := Store(dev, base + x, v), Store(dev[base..base + len], x, v);
    forall k | 0 <= k < len ensures all[base..base + len][k] == w[k] {
      assert all[base..base + len][k] == all[base + k];
    }
  }

  lemma SliceOfSlice<T>(s: seq<T>, lo: nat, hi: nat, x: nat, y: nat)
    requires lo <= hi <= |s| && x <= y <= hi - lo
    ensures s[lo..hi][x..y] == s[lo + x..lo + y]
  {
    var a, b := s[lo..hi][x..y], s[lo + x..lo + y];
    assert |a| == |b|;
    forall k | 0 <= k < |a| ensures a[k] == b[k] {
      assert a[k] == s[lo..hi][x + k] == s[lo + (x + k)];
    }
  }

  lemma LoadInWindow(dev: Bytes, base: nat, len: nat, x: nat)
    requires base + len <= |dev| && x + 8 <= len
    ensures Load(dev, base + x) == Load(dev[base..base + len], x)
  {
    hide GetU64;
    SliceOfSlice(dev, base, base + len, x, x + 8);
  }

  /** `memcpy` and `memset`. */
  method Copy(out: array<byte>, at: nat, src: Bytes)
    requires at + |src| <= out.Length
    modifies out
    ensures forall i :: 0 <= i < |src| ==> out[at + i] == src[i]
    ensures forall p :: 0 <= p < out.Length && !(at <= p < at + |src|) ==> out[p] == old(out[p])
  {
    for i := 0 to |src|
      invariant forall j :: 0 <= j < i ==> out[at + j] == src[j]
      invariant forall p :: 0 <= p < out.Length && !(at <= p < at + i) ==> out[p] == old(out[p])
    {
      out[at + i] := src[i];
    }
  }

  method Clear(out: array<byte>, lo: nat, hi: nat)
    requires lo <= hi <= out.Length
    modifies out
    ensures forall p :: 0 <= p < out.Length ==> out[p] == if lo <= p < hi then 0 else old(out[p])
  {
    for i := lo to hi
      invariant forall p :: 0 <= p < out.Length ==> out[p] == if lo <= p < i then 0 else old(out[p])
    {
      out[i] := 0;
    }
  }
}
