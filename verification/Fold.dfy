/**
 The proof-of-work fold (crates/meshhash-cpu/src/lib.rs and fusion.rs) and its short cut on a
 GPU, where a kernel packs the few bytes that are hashed and the host never sees the pad
 (apps/mesh-miner-gpu/cuda/meshhash_mix.cu, engine.rs). `hash` is BLAKE3.
 */
module Fold {
  import opened Machine
  import opened Slices
  import opened Text
  import opened Words
  import opened Wave

  datatype Params = Params(version: nat, mixRounds: nat, salt: u64)

  type Hash = Bytes -> Digest

  /** The lengths the fold accepts: the wave, from version 4 on, needs 64 bytes. */
  predicate Foldable(p: Params, len: nat) { len < TWO64 && (p.version >= 4 ==> WaveSize(len)) }

  // ---------- which bytes are hashed ----------

  function Stride(len: nat): (d: nat)
    ensures d >= 32
  {
    Max(len / 1024, 32)
  }

  function SampleCount(len: nat): nat {
    DivCeil(len, Stride(len))
  }

  /** Sample k starts inside the pad just when k is below the count. */
  lemma SampleStarts(len: nat, k: nat)
    ensures k * Stride(len) < len <==> k < SampleCount(len)
  {
    CountMeaning(len, Stride(len), k);
  }

  lemma CountMeaning(n: nat, d: nat, k: nat)
    requires d > 0
    ensures k * d < n <==> k < DivCeil(n, d)
  {
    hide DivCeil;
    var c := DivCeil(n, d);
    DivCeilBounds(n, d);
    if k < c {
      MulOrder(k, c - 1, d);
      NextMultiple(c - 1, d);
    } else {
      MulOrder(c, k, d);
    }
  }

  lemma DivCeilBounds(n: nat, d: nat)
    requires d > 0
    ensures n <= DivCeil(n, d) * d < n + d
  {
    var m := n + d - 1;
    assert m == (m / d) * d + m % d;
  }

  lemma MulOrder(a: nat, b: nat, d: nat)
    requires a <= b
    ensures a * d <= b * d
  {
  }

  /** The count fits the kernel's 32-bit counter with room to spare. */
  lemma SampleCountSmall(len: nat)
    ensures SampleCount(len) <= 1056
  {
    CountMeaning(len, Stride(len), 1056);
  }

  function Sample(pad: Bytes, k: nat): (s: Bytes)
    requires k * Stride(|pad|) < |pad|
    ensures 0 < |s| <= 32
  {
    var i := k * Stride(|pad|);
    pad[i..Min(i + 32, |pad|)]
  }

  function SamplesUpTo(pad: Bytes, k: nat): Bytes
    requires k <= SampleCount(|pad|)
  {
    if k == 0 then [] else SampleStarts(|pad|, k - 1); SamplesUpTo(pad, k - 1) + Sample(pad, k - 1)
  }

  function Samples(pad: Bytes): Bytes { SamplesUpTo(pad, SampleCount(|pad|)) }

  /** Short samples carry zeros up to 32 bytes. */
  function Padded(s: Bytes): (r: Bytes)
    requires |s| <= 32
    ensures |r| == 32
  {
    s + seq(32 - |s|, _ => 0)
  }

  // ---------- the fold ----------

  function LengthAndSalt(len: u64, salt: u64): Bytes {
    PutU64(len) + if salt == 0 then [] else PutU64(salt)
  }

  /** What the CPU fold hashes before version 5, what its seal hashes from then on, and what binds both lanes. */
  function UnsealedInput(samples: Bytes, len: u64, salt: u64): Bytes { samples + LengthAndSalt(len, salt) }

  function SealedInput(samples: Bytes, len: u64, salt: u64, ticket: Digest): Bytes {
    UnsealedInput(samples, len, salt) + ticket + Ascii("cpu-v5")
  }

  function BoundInput(cpu: Digest, ticket: Digest, salt: u64, len: u64, tag: string): Bytes {
    cpu + ticket + PutU64(salt) + PutU64(len) + Ascii(tag)
  }

  /** The three folds over the bytes sampled, by version. */
  function FoldBy(h: Hash, p: Params, samples: Bytes, acc: Digest, len: u64): Digest {
    var ticket := h(acc);
    if p.version >= 5 then h(BoundInput(h(SealedInput(samples, len, p.salt, ticket)), ticket, p.salt, len, "v5"))
    else
      var cpu := h(UnsealedInput(samples, len, p.salt));
      if p.version >= 4 then h(BoundInput(cpu, ticket, p.salt, len, "v4")) else cpu
  }

  /** The accumulator that goes in: the wave from version 4 on, nothing before. */
  function WaveFor(h: Hash, p: Params, pad: Bytes): Digest
    requires Foldable(p, |pad|)
  {
    if p.version >= 4 then WaveOf(h, pad, p.salt) else Zeros32()
  }

  /** The consensus fold of a mixed pad. */
  function FoldPow(h: Hash, p: Params, pad: Bytes): Digest
    requires Foldable(p, |pad|)
  {
    FoldBy(h, p, Samples(pad), WaveFor(h, p, pad), |pad|)
  }

  /** The reference loop. */
  method SamplesOfPad(pad: Bytes) returns (input: Bytes)
    ensures input == Samples(pad)
  {
    hide Sample, SampleCount, SampleAt, Stride;
    var stride := Max(|pad| / 1024, 32);
    StrideIs(|pad|);
    input := [];
    var i := 0;
    ghost var k := 0;
    while i < |pad|
      invariant i == k * stride && k <= SampleCount(|pad|)
      invariant input == SamplesUpTo(pad, k)
      decreases SampleCount(|pad|) - k
    {
      SampleStarts(|pad|, k);
      input := input + SampleAt(pad, i, k);
      NextMultiple(k, stride);
      i := i + stride;
      k := k + 1;
    }
    SampleStarts(|pad|, k);
  }

  lemma StrideIs(len: nat)
    ensures Stride(len) == Max(len / 1024, 32)
  {
  }

  lemma MulAtLeast(k: nat, d: nat)
    requires k > 0
    ensures k * d >= d
  {
  }

  lemma NextMultiple(k: nat, d: nat)
    ensures (k + 1) * d == k * d + d
  {
  }

  function SampleAt(pad: Bytes, i: nat, ghost k: nat): (s: Bytes)
    requires i == k * Stride(|pad|) < |pad|
    ensures s == Sample(pad, k)
  {
    pad[i..Min(i + 32, |pad|)]
  }

  /** What the fold hashes fixes the whole pad just when samples leave no gaps: pads below 33 KiB. */
  lemma SamplesDetermineIff(len: nat)
    ensures (forall p: Bytes, q: Bytes :: |p| == len && |q| == len && Samples(p) == Samples(q) ==> p == q)
            <==> len < 33 * 1024
  {
    if len < 33 * 1024 {
      forall p: Bytes, q: Bytes | |p| == len && |q| == len && Samples(p) == Samples(q) ensures p == q {
        SamplesAreAll(p);
        SamplesAreAll(q);
      }
    } else {
      var p: Bytes := seq(len, _ => 0);
      var q: Bytes := p[32 := 1];
      GapUnseen(p, q, SampleCount(len));
      assert p[32] != q[32];
    }
  }

  lemma SamplesAreAll(pad: Bytes)
    requires |pad| < 33 * 1024
    ensures Samples(pad) == pad
  {
    var c := SampleCount(|pad|);
    SamplesArePrefix(pad, c);
    SampleStarts(|pad|, c);
  }

  lemma {:induction false} SamplesArePrefix(pad: Bytes, k: nat)
    requires |pad| < 33 * 1024 && k <= SampleCount(|pad|)
    ensures SamplesUpTo(pad, k) == pad[..Min(k * 32, |pad|)]
  {
    if k > 0 {
      SamplesArePrefix(pad, k - 1);
      SampleStarts(|pad|, k - 1);
    }
  }

  lemma {:induction false} GapUnseen(p: Bytes, q: Bytes, k: nat)
    requires |p| == |q| >= 33 * 1024 && k <= SampleCount(|p|) && q == p[32 := 1]
    ensures SamplesUpTo(p, k) == SamplesUpTo(q, k)
  {
    if k > 0 {
      GapUnseen(p, q, k - 1);
      SampleStarts(|p|, k - 1);
      assert Sample(p, k - 1) == Sample(q, k - 1) by {
        hide SamplesUpTo, SampleCount;
        var d := Stride(|p|);
        if k > 1 {
          MulAtLeast(k - 1, d);
        }
      }
    }
  }

  // ---------- packing ----------

  /** Sample k of the pad stands, padded, at its place in the packed buffer. */
  ghost predicate PackedAt(packed: Bytes, pad: Bytes, k: nat) {
    && k * Stride(|pad|) < |pad| && 32 * k + 32 <= |packed|
    && packed[32 * k..32 * k + 32] == Padded(Sample(pad, k))
  }

  ghost predicate Packed(packed: Bytes, pad: Bytes) {
    forall k :: 0 <= k < SampleCount(|pad|) ==> PackedAt(packed, pad, k)
  }

  /** Only the real bytes of each packed sample are hashed, so the hash input is the pad's own. */
  method SamplesOfPacked(packed: Bytes, len: nat, ghost pad: Bytes) returns (input: Bytes)
    requires len == |pad| && Packed(packed, pad)
    ensures input == Samples(pad)
  {
    hide Sample, PackedAt;
    var stride := Max(len / 1024, 32);
    input := [];
    var o, i := 0, 0;
    ghost var k := 0;
    while i < len
      invariant i == k * stride && o == 32 * k && k <= SampleCount(len)
      invariant input == SamplesUpTo(pad, k)
      decreases SampleCount(len) - k
    {
      SampleStarts(len, k);
      PackedSample(packed, pad, k);
      var n := Min(i + 32, len) - i;
      input := input + packed[o..o + n];
      o := o + 32;
      i := i + stride;
      k := k + 1;
    }
    SampleStarts(len, k);
  }

  lemma PackedSample(packed: Bytes, pad: Bytes, k: nat)
    requires PackedAt(packed, pad, k)
    ensures k * Stride(|pad|) < |pad| && 32 * k + 32 <= |packed|
    ensures packed[32 * k..32 * k + |Sample(pad, k)|] == Sample(pad, k)
    ensures |Sample(pad, k)| == Min(k * Stride(|pad|) + 32, |pad|) - k * Stride(|pad|)
  {
    var s := Sample(pad, k);
    assert packed[32 * k..32 * k + |s|] == packed[32 * k..32 * k + 32][..|s|] == Padded(s)[..|s|];
  }

  /** `copy_fold_samples`, and one thread of the extract kernel: the pad's samples at `at`, nothing else touched. */
  method PackSamples(pad: Bytes, out: array<byte>, at: nat)
    requires at + 32 * SampleCount(|pad|) <= out.Length
    modifies out
    ensures Packed(out[at..at + 32 * SampleCount(|pad|)], pad)
    ensures forall p :: 0 <= p < out.Length && !(at <= p < at + 32 * SampleCount(|pad|)) ==> out[p] == old(out[p])
  {
    hide Sample, PackedAt, SampleCount, Padded;
    var stride, count := Stride(|pad|), SampleCount(|pad|);
    ghost var end := at + 32 * count;
    for k := 0 to count
      invariant forall j :: 0 <= j < k ==> PackedAt(out[at..end], pad, j)
      invariant forall p :: 0 <= p < out.Length && !(at <= p < end) ==> out[p] == old(out[p])
    {
      SampleStarts(|pad|, k);
      ghost var before := out[at..end];
      WriteSample(out, at + 32 * k, SampleAt(pad, k * stride, k));
      ghost var after := out[at..end];
      forall j | 0 <= j <= k ensures PackedAt(after, pad, j) {
        PackedStep(before, after, pad, k, j);
      }
    }
  }

  lemma PackedStep(before: Bytes, after: Bytes, pad: Bytes, k: nat, j: nat)
    requires |before| == |after| && 32 * k + 32 <= |after| && k * Stride(|pad|) < |pad|
    requires after == before[..32 * k] + Padded(Sample(pad, k)) + before[32 * k + 32..]
    requires j <= k && (j < k ==> PackedAt(before, pad, j))
    ensures PackedAt(after, pad, j)
  {
    if j < k {
      assert after[32 * j..32 * j + 32] == before[32 * j..32 * j + 32];
    }
  }

  method WriteSample(out: array<byte>, at: nat, sample: Bytes)
    requires |sample| <= 32 && at + 32 <= out.Length
    modifies out
    ensures out[..] == old(out[..at]) + Padded(sample) + old(out[at + 32..])
  {
    var n := |sample|;
    Copy(out, at, sample);
    Clear(out, at + n, at + 32);
  }

  // ---------- the two ways to the digest ----------

  method FoldOnCpu(h: Hash, p: Params, pad: Bytes) returns (d: Digest)
    requires Foldable(p, |pad|)
    ensures d == FoldPow(h, p, pad)
  {
    hide Samples, WaveOf;
    if p.version >= 5 {
      var acc := WaveOnCpu(h, pad, p.salt);
      var wave := h(acc);
      var input := SamplesOfPad(pad);
      var cpu := Seal(h, input, wave, |pad|, p.salt);
      d := Fuse(h, cpu, wave, p.salt, |pad|, "v5");
      return;
    }
    var input := SamplesOfPad(pad);
    d := Salted(h, input, |pad|, p.salt);
    if p.version >= 4 {
      var acc := WaveOnCpu(h, pad, p.salt);
      d := Fuse(h, d, h(acc), p.salt, |pad|, "v4");
    }
  }

  /** From the packed samples and the accumulator alone, without the pad. */
  method FoldFromExtract(h: Hash, p: Params, packed: Bytes, acc: Digest, len: u64, ghost pad: Bytes)
    returns (d: Digest)
    requires len == |pad| && Foldable(p, len) && Packed(packed, pad)
    requires p.version >= 4 ==> acc == WaveOf(h, pad, p.salt)
    ensures d == FoldPow(h, p, pad)
  {
    hide Samples, WaveOf;
    var wave := h(acc);
    var input := SamplesOfPacked(packed, len, pad);
    if p.version >= 5 {
      var sealed := Seal(h, input, wave, len, p.salt);
      d := Fuse(h, sealed, wave, p.salt, len, "v5");
      return;
    }
    d := Salted(h, input, len, p.salt);
    if p.version >= 4 {
      d := Fuse(h, d, wave, p.salt, len, "v4");
    }
  }

  // ---------- feeding the hasher ----------

  /** Samples, length, and the salt unless it is zero. */
  method Salted(h: Hash, samples: Bytes, len: u64, salt: u64) returns (d: Digest)
    ensures d == h(UnsealedInput(samples, len, salt))
  {
    hide PutU64;
    var input := samples;
    input := input + PutU64(len);
    if salt != 0 {
      input := input + PutU64(salt);
    }
    assert input == UnsealedInput(samples, len, salt);
    d := h(input);
  }

  /** The seal of version 5 also takes in the wave's digest, so it cannot be computed before it. */
  method Seal(h: Hash, samples: Bytes, wave: Digest, len: u64, salt: u64) returns (d: Digest)
    ensures d == h(SealedInput(samples, len, salt, wave))
  {
    hide PutU64, Ascii;
    var input := samples;
    input := input + PutU64(len);
    if salt != 0 {
      input := input + PutU64(salt);
    }
    assert input == UnsealedInput(samples, len, salt);
    input := input + wave;
    input := input + Ascii("cpu-v5");
    d := h(input);
  }

  method Fuse(h: Hash, cpu: Digest, wave: Digest, salt: u64, len: u64, tag: string) returns (d: Digest)
    ensures d == h(BoundInput(cpu, wave, salt, len, tag))
  {
    hide PutU64, Ascii;
    var buf: Bytes := [];
    buf := buf + cpu;
    buf := buf + wave;
    buf := buf + PutU64(salt);
    buf := buf + PutU64(len);
    buf := buf + Ascii(tag);
    assert buf == BoundInput(cpu, wave, salt, len, tag);
    d := h(buf);
  }
}
