/**
 The same exact condition for digests: a hash function that copies out the sample holding the mark
 tells the two pads of `MixWrap` apart after the device's mix, whatever the version.
 */
module DigestWrap {
  import opened Machine
  import opened Text
  import opened Words
  import opened Wave
  import opened Mix
  import opened Fold
  import opened FoldInputs
  import opened Node
  import opened Device
  import opened MixWrap

  /** Copies 32 bytes: those at o of an input long enough to hold samples, else the first. */
  function Copier(o: nat): Hash {
    (b: Bytes) =>
      if |b| >= 1024 && o + 32 <= |b| then b[o..o + 32] else if 32 <= |b| < 1024 then b[..32] else Zeros32()
  }

  /** Sample k of a pad, if it and those before it are full, stands at 32 * k among the bytes hashed. */
  lemma SampleAmongSamples(pad: Bytes, k: nat)
    requires k + 1 < SampleCount(|pad|) && k * Stride(|pad|) < |pad|
    ensures 32 * k + 32 <= |Samples(pad)| && |Sample(pad, k)| == 32
    ensures Samples(pad)[32 * k..32 * k + 32] == Sample(pad, k)
  {
    hide SampleCount, Sample;
    SampleStarts(|pad|, k);
    FullBefore(|pad|, k);
    FullBefore(|pad|, k + 1);
    SampledLength(pad, k);
    SampledLength(pad, k + 1);
    PrefixOfSamples(pad, k + 1, SampleCount(|pad|));
    assert SamplesUpTo(pad, k + 1)[32 * k..] == Sample(pad, k);
  }

  lemma {:induction false} PrefixOfSamples(pad: Bytes, k: nat, n: nat)
    requires k <= n <= SampleCount(|pad|)
    ensures SamplesUpTo(pad, k) <= SamplesUpTo(pad, n)
    decreases n - k
  {
    hide Sample, SampleCount;
    if k < n {
      PrefixOfSamples(pad, k, n - 1);
      SampleStarts(|pad|, n - 1);
    }
  }

  /** Under the copier every version's digest of a large pad is that part of the bytes sampled. */
  lemma CopiedFold(p: Params, samples: Bytes, acc: Digest, len: u64, k: nat)
    requires |samples| >= 1024 && 32 * k + 32 <= |samples|
    ensures FoldBy(Copier(32 * k), p, samples, acc, len) == samples[32 * k..32 * k + 32]
  {
    hide Copier, UnsealedInput, SealedInput, BoundInput;
    var h := Copier(32 * k);
    var ticket := h(acc);
    CopiedUnsealed(samples, len, p.salt, k);
    CopiedSealed(samples, len, p.salt, ticket, k);
    CopiedBound(samples[32 * k..32 * k + 32], ticket, p.salt, len, "v4", k);
    CopiedBound(samples[32 * k..32 * k + 32], ticket, p.salt, len, "v5", k);
  }

  lemma CopiedUnsealed(samples: Bytes, len: u64, salt: u64, k: nat)
    requires |samples| >= 1024 && 32 * k + 32 <= |samples|
    ensures Copier(32 * k)(UnsealedInput(samples, len, salt)) == samples[32 * k..32 * k + 32]
  {
    hide LengthAndSalt, Copier;
    CopiedPrefix(samples, LengthAndSalt(len, salt), k);
  }

  lemma CopiedSealed(samples: Bytes, len: u64, salt: u64, ticket: Digest, k: nat)
    requires |samples| >= 1024 && 32 * k + 32 <= |samples|
    ensures Copier(32 * k)(SealedInput(samples, len, salt, ticket)) == samples[32 * k..32 * k + 32]
  {
    hide LengthAndSalt, Copier, Ascii;
    var rest := LengthAndSalt(len, salt) + ticket + Ascii("cpu-v5");
    assert SealedInput(samples, len, salt, ticket) == samples + rest;
    CopiedPrefix(samples, rest, k);
  }

  lemma CopiedBound(cpu: Digest, ticket: Digest, salt: u64, len: u64, tag: string, k: nat)
    requires |tag| == 2
    ensures Copier(32 * k)(BoundInput(cpu, ticket, salt, len, tag)) == cpu
  {
    hide PutU64, Copier, Ascii;
    var rest := ticket + PutU64(salt) + PutU64(len) + Ascii(tag);
    assert BoundInput(cpu, ticket, salt, len, tag) == cpu + rest;
    CopiedHead(cpu, rest, k);
  }

  lemma CopiedPrefix(samples: Bytes, rest: Bytes, k: nat)
    requires |samples| >= 1024 && 32 * k + 32 <= |samples|
    ensures Copier(32 * k)(samples + rest) == samples[32 * k..32 * k + 32]
  {
    var all := samples + rest;
    assert all[32 * k..32 * k + 32] == samples[32 * k..32 * k + 32];
  }

  lemma CopiedHead(head: Digest, rest: Bytes, k: nat)
    requires |rest| < 900
    ensures Copier(32 * k)(head + rest) == head
  {
    assert (head + rest)[..32] == head;
  }

  /** The pads of `MixWrap` are sampled at every 2^30 bytes. */
  lemma SampledLen()
    ensures Stride(LEN) == 0x4000_0000 && SampleCount(LEN) == 1024 && SampledSize(LEN) == 32768
  {
    hide SampledSize, SampleCount;
    assert Stride(LEN) == 0x4000_0000;
    SampleStarts(LEN, 1023);
    SampleStarts(LEN, 1024);
    SampledEvenly(LEN);
  }

  /** Two pads of that length with different words at a mark have different digests under the mark's copier. */
  lemma MarkInDigest(p: Params, a: Bytes, b: Bytes, x: nat, k: nat)
    requires |a| == |b| == LEN && k < 1023 && x == k * 0x4000_0000
    requires x + 8 <= LEN && Load(a, x) != Load(b, x)
    ensures FoldPow(Copier(32 * k), p, a) != FoldPow(Copier(32 * k), p, b)
  {
    hide GetU64;
    CopiedWord(p, a, x, k);
    CopiedWord(p, b, x, k);
  }

  lemma CopiedWord(p: Params, pad: Bytes, x: nat, k: nat)
    requires |pad| == LEN && k < 1023 && x == k * 0x4000_0000 && x + 8 <= LEN
    ensures FoldPow(Copier(32 * k), p, pad)[..8] == pad[x..x + 8]
  {
    hide Samples, FoldBy, SampledSize, Copier, WaveFor;
    SampledLen();
    SizeOfSamples(pad);
    SampleAmongSamples(pad, k);
    CopiedFold(p, Samples(pad), WaveFor(Copier(32 * k), p, pad), LEN, k);
    assert Sample(pad, k)[..8] == pad[x..x + 8];
  }

  /**
   The device computes the node's digest, for every hash function and pad, just when there are fewer
   than 2^32 rounds, in every version and under every salt.
   */
  lemma DeviceDigestIff(p: Params)
    ensures (forall h: Hash, pad: Bytes :: Minable(p, |pad|) ==>
               Minable(DeviceParams(p), |pad|) && NodeDigest(h, DeviceParams(p), pad) == NodeDigest(h, p, pad))
            <==> p.mixRounds < WINDOW
  {
    hide NodeDigest, Truncated;
    if p.mixRounds < WINDOW {
      SmallTruncated(p.mixRounds);
      assert DeviceParams(p) == p;
    } else {
      var h, pad := WrongDigest(p);
    }
  }

  lemma WrongDigest(p: Params) returns (h: Hash, pad: Bytes)
    requires p.mixRounds >= WINDOW
    ensures Minable(p, |pad|) && Minable(DeviceParams(p), |pad|)
    ensures NodeDigest(h, DeviceParams(p), pad) != NodeDigest(h, p, pad)
  {
    hide Mixed, FoldPow, Base, Load, Truncated, Copier;
    var marked, x := TwoPads(p.mixRounds, p.version);
    var k := if x == MARK_1 then 564 else 84;
    h := Copier(32 * k);
    var q := DeviceParams(p);
    MarkInDigest(q, Mixed(marked, q.mixRounds, q.version), Mixed(Base(), q.mixRounds, q.version), x, k);
    pad := if NodeDigest(h, q, Base()) != NodeDigest(h, p, Base()) then Base() else marked;
  }
}
