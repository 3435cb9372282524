/**
 What goes into a digest of the proof of work (crates/meshhash-cpu/src/lib.rs, `fold_pow_for_version`;
 fusion.rs), found out from outside: by what the digest depends on, for every hash function, and by hash
 functions that copy out part of what they are fed. From version 4 on the last thing hashed are 82 bytes.
 */
module Tickets {
  import opened Machine
  import opened Text
  import opened Wave
  import opened Fold
  import opened FoldInputs
  import opened DigestWrap
  import opened Mix
  import opened Node

  // ---------- what it depends on ----------

  /** The accumulator matters only through its hash, and before version 4 not at all. */
  lemma SameTicketSameFold(h: Hash, p: Params, samples: Bytes, len: u64, acc: Digest, acc2: Digest)
    requires p.version < 4 || h(acc) == h(acc2)
    ensures FoldBy(h, p, samples, acc, len) == FoldBy(h, p, samples, acc2, len)
  {
    hide SealedInput, BoundInput, UnsealedInput;
  }

  /** Inputs that the hash function confuses. */
  ghost predicate Collision(h: Hash, a: Bytes, b: Bytes) { a != b && h(a) == h(b) }

  /**
   From version 4 on, accumulators of different hashes give different folds, unless the hash function confuses
   two inputs of 82 bytes that hold those hashes at 32..64.
   */
  lemma TicketsTellApart(h: Hash, p: Params, samples: Bytes, len: u64, acc: Digest, acc2: Digest)
    requires p.version >= 4 && h(acc) != h(acc2)
    requires forall a: Bytes, b: Bytes ::
      |a| == 82 && |b| == 82 && a[32..64] == h(acc) && b[32..64] == h(acc2) ==> !Collision(h, a, b)
    ensures FoldBy(h, p, samples, acc, len) != FoldBy(h, p, samples, acc2, len)
  {
    hide SealedInput, BoundInput, UnsealedInput;
    var tag := if p.version >= 5 then "v5" else "v4";
    var a := BoundInput(CpuLane(h, p, samples, acc, len), h(acc), p.salt, len, tag);
    var b := BoundInput(CpuLane(h, p, samples, acc2, len), h(acc2), p.salt, len, tag);
    BoundParts(CpuLane(h, p, samples, acc, len), h(acc), p.salt, len, tag);
    BoundParts(CpuLane(h, p, samples, acc2, len), h(acc2), p.salt, len, tag);
    assert !Collision(h, a, b);
  }

  /** The CPU's half of what is bound. */
  function CpuLane(h: Hash, p: Params, samples: Bytes, acc: Digest, len: u64): Digest {
    if p.version >= 5 then h(SealedInput(samples, len, p.salt, h(acc))) else h(UnsealedInput(samples, len, p.salt))
  }

  lemma BoundParts(cpu: Digest, ticket: Digest, salt: u64, len: u64, tag: string)
    requires |tag| == 2
    ensures var b := BoundInput(cpu, ticket, salt, len, tag);
      |b| == 82 && b[..32] == cpu && b[32..64] == ticket
      && b[64..72] == PutU64(salt) && b[72..80] == PutU64(len) && b[80..] == Ascii(tag)
  {
    hide PutU64, Ascii;
  }

  // ---------- what is hashed ----------

  /** The bytes of a pad, its length and, unless it is zero, the salt. */
  function Plain(samples: Bytes, len: u64, salt: u64): Bytes {
    if salt == 0 then samples + PutU64(len) else samples + PutU64(len) + PutU64(salt)
  }

  lemma UnsealedIsPlain(samples: Bytes, len: u64, salt: u64)
    ensures UnsealedInput(samples, len, salt) == Plain(samples, len, salt)
  {
    hide PutU64;
  }

  lemma OldFold(h: Hash, p: Params, samples: Bytes, acc: Digest, len: u64)
    requires p.version < 4
    ensures FoldBy(h, p, samples, acc, len) == h(Plain(samples, len, p.salt))
  {
    hide PutU64;
    UnsealedIsPlain(samples, len, p.salt);
  }

  /**
   A hash that copies out the first 32 of 82 bytes shows the CPU's half: the hash of samples, length and salt,
   and from version 5 on also of the accumulator's hash and the letters cpu-v5.
   */
  lemma FirstHalf(h: Hash, p: Params, samples: Bytes, acc: Digest, len: u64)
    requires p.version >= 4 && forall b: Bytes :: |b| == 82 ==> h(b) == b[..32]
    ensures FoldBy(h, p, samples, acc, len)
         == if p.version >= 5 then h(Plain(samples, len, p.salt) + h(acc) + [99, 112, 117, 45, 118, 53])
            else h(Plain(samples, len, p.salt))
  {
    hide BoundInput, UnsealedInput, Plain;
    UnsealedIsPlain(samples, len, p.salt);
    SealTag();
    BoundParts(CpuLane(h, p, samples, acc, len), h(acc), p.salt, len, if p.version >= 5 then "v5" else "v4");
  }

  lemma SealTag()
    ensures Ascii("cpu-v5") == [99, 112, 117, 45, 118, 53]
    ensures Ascii("v4") == [118, 52] && Ascii("v5") == [118, 53]
  {
  }

  /** One that copies out the next 32 shows the accumulator's hash. */
  lemma SecondHalf(h: Hash, p: Params, samples: Bytes, acc: Digest, len: u64)
    requires p.version >= 4 && forall b: Bytes :: |b| == 82 ==> h(b) == b[32..64]
    ensures FoldBy(h, p, samples, acc, len) == h(acc)
  {
    hide BoundInput, UnsealedInput, SealedInput;
    BoundParts(CpuLane(h, p, samples, acc, len), h(acc), p.salt, len, if p.version >= 5 then "v5" else "v4");
  }

  /** And one that copies out the last 32 shows salt, length and version after the end of that hash. */
  lemma Tail(h: Hash, p: Params, samples: Bytes, acc: Digest, len: u64)
    requires p.version >= 4 && forall b: Bytes :: |b| == 82 ==> h(b) == b[50..]
    ensures FoldBy(h, p, samples, acc, len)
         == h(acc)[18..] + PutU64(p.salt) + PutU64(len) + [118, if p.version >= 5 then 53 else 52]
  {
    hide UnsealedInput, SealedInput, PutU64, Ascii;
    SealTag();
    var tag := if p.version >= 5 then "v5" else "v4";
    var cpu := CpuLane(h, p, samples, acc, len);
    var b := BoundInput(cpu, h(acc), p.salt, len, tag);
    assert b == cpu + h(acc) + PutU64(p.salt) + PutU64(len) + Ascii(tag);
    TailOf(cpu, h(acc), PutU64(p.salt), PutU64(len), Ascii(tag));
  }

  lemma TailOf(a: Bytes, b: Bytes, c: Bytes, d: Bytes, e: Bytes)
    requires |a| == |b| == 32 && |c| == |d| == 8 && |e| == 2
    ensures (a + b + c + d + e)[50..] == b[18..] + c + d + e
  {
  }

  // ---------- the whole fold of a pad ----------

  /** Pads below 33 KiB go in whole; from version 4 on the ticket is the hash of the pad's wave under the salt. */
  lemma FoldOfSmallPad(h: Hash, p: Params, pad: Bytes)
    requires Foldable(p, |pad|) && |pad| < 33 * 1024
    ensures FoldPow(h, p, pad)
         == FoldBy(h, p, pad, if p.version >= 4 then WaveOf(h, pad, p.salt) else Zeros32(), |pad|)
  {
    hide FoldBy, WaveOf, Samples;
    SamplesAreAll(pad);
  }

  /** Of a longer pad, byte r of sample k is the pad's at k strides, a stride being a 1024th of the pad or 32. */
  lemma HashedByte(pad: Bytes, k: nat, r: nat)
    requires var d := if |pad| / 1024 > 32 then |pad| / 1024 else 32;
      r < 32 && k * d + r < |pad|
    ensures 32 * k + r < |Samples(pad)|
    ensures Samples(pad)[32 * k + r] == pad[k * (if |pad| / 1024 > 32 then |pad| / 1024 else 32) + r]
  {
    hide SampleCount, SampledUpTo, Stride;
    StrideIs(|pad|);
    SampleStarts(|pad|, k);
    FullBefore(|pad|, k);
    SampledLength(pad, k);
    PrefixOfSamples(pad, k + 1, SampleCount(|pad|));
    assert SamplesUpTo(pad, k + 1)[32 * k + r] == Sample(pad, k)[r];
  }

  // ---------- winners ----------

  /**
   A nonce wins just when the digest of its own pad, mixed by all the rounds of the version and folded, meets
   the difficulty: before version 4, under a hash that copies out the first 32 bytes, those of the mixed pad.
   */
  lemma FirstBytesWin(z: Puzzle, fill: nat -> Bytes, x: nat)
    requires z.p.version < 4 && Minable(z.p, |fill(x)|) && |fill(x)| >= 32
    requires forall b: Bytes :: |b| >= 32 ==> z.h(b) == b[..32]
    ensures NonceWins(z, fill)(x) <==> z.meets(Mixed(fill(x), z.p.mixRounds, z.p.version)[..32])
  {
    hide Mixed, FoldBy;
    var pad := Mixed(fill(x), z.p.mixRounds, z.p.version);
    OldFold(z.h, z.p, Samples(pad), Zeros32(), |pad|);
    FirstSample(pad);
    hide PutU64;
    assert Plain(Samples(pad), |pad|, z.p.salt)[..32] == Samples(pad)[..32];
  }

  /** For every version: the pad has a legal length, 64 bytes or more from version 4 on, and its digest is good. */
  lemma WinsIff(z: Puzzle, fill: nat -> Bytes, x: nat)
    ensures var n := |fill(x)|;
      NonceWins(z, fill)(x) <==>
        (8 <= n < 0x1_0000_0000_0000_0000 && (z.p.version >= 4 ==> n >= 64)
         && z.meets(FoldPow(z.h, z.p, Mixed(fill(x), z.p.mixRounds, z.p.version))))
  {
    hide Mixed, FoldPow;
  }

  lemma FirstSample(pad: Bytes)
    requires |pad| >= 32
    ensures |Samples(pad)| >= 32 && Samples(pad)[..32] == pad[..32]
  {
    hide SampleCount, SampledUpTo, Samples;
    HashedByte(pad, 0, 31);
    forall r | 0 <= r < 32 ensures r < |Samples(pad)| && Samples(pad)[r] == pad[r] {
      HashedByte(pad, 0, r);
    }
  }
}
