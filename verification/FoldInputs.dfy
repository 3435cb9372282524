/**
 What a digest of the fold binds (crates/meshhash-cpu/src/lib.rs, `fold_scratchpad_salted`; fusion.rs).
 The hasher is fed samples, length and salt back to back, with no salt at all when it is zero, so
 one input can be read in two ways. Exactly when is said here.
 */
module FoldInputs {
  import opened Machine
  import opened Text
  import opened Words
  import opened Fold
  import opened WordAlgebra

  function InputOf(pad: Bytes, salt: u64): Bytes
    requires |pad| < TWO64
  {
    UnsealedInput(Samples(pad), |pad|, salt)
  }

  /** The salted reading of one input and the unsalted reading of the same bytes: the salt is the other's length. */
  ghost predicate Shifted(p: Bytes, s: u64, q: Bytes, t: u64)
    requires |p| < TWO64
  {
    s != 0 && t == 0 && s == |q| && Samples(q) == Samples(p) + PutU64(|p|)
  }

  /**
   Two pads and salts feed the same bytes just when they agree in all that is fed, or one reading is
   the other shifted.
   */
  lemma InputsEqualIff(p: Bytes, s: u64, q: Bytes, t: u64)
    requires |p| < TWO64 && |q| < TWO64
    ensures InputOf(p, s) == InputOf(q, t) <==>
      ((Samples(p) == Samples(q) && |p| == |q| && s == t) || Shifted(p, s, q, t) || Shifted(q, t, p, s))
  {
    hide Samples, PutU64;
    if s == 0 && t == 0 {
      assert InputOf(p, 0) == Samples(p) + PutU64(|p|) && InputOf(q, 0) == Samples(q) + PutU64(|q|);
      SplitTail(Samples(p), PutU64(|p|), Samples(q), PutU64(|q|));
      PutInjective(|p|, |q|);
    } else if s != 0 && t != 0 {
      SplitTail(Samples(p) + PutU64(|p|), PutU64(s), Samples(q) + PutU64(|q|), PutU64(t));
      assert InputOf(p, s) == (Samples(p) + PutU64(|p|)) + PutU64(s);
      assert InputOf(q, t) == (Samples(q) + PutU64(|q|)) + PutU64(t);
      SplitTail(Samples(p), PutU64(|p|), Samples(q), PutU64(|q|));
      PutInjective(|p|, |q|);
      PutInjective(s, t);
    } else if s != 0 {
      ShiftedReading(p, s, q);
    } else {
      ShiftedReading(q, t, p);
    }
  }

  lemma ShiftedReading(p: Bytes, s: u64, q: Bytes)
    requires |p| < TWO64 && |q| < TWO64 && s != 0
    ensures InputOf(p, s) == InputOf(q, 0) <==> Shifted(p, s, q, 0)
  {
    hide Samples, PutU64;
    assert InputOf(p, s) == (Samples(p) + PutU64(|p|)) + PutU64(s);
    SplitTail(Samples(p) + PutU64(|p|), PutU64(s), Samples(q), PutU64(|q|));
    PutInjective(s, |q|);
  }

  lemma SplitTail(a: Bytes, x: Bytes, b: Bytes, y: Bytes)
    requires |x| == |y|
    ensures a + x == b + y <==> a == b && x == y
  {
    if a + x == b + y {
      assert |a| == |b|;
      assert (a + x)[..|a|] == a && (b + y)[..|b|] == b;
      assert (a + x)[|a|..] == x && (b + y)[|b|..] == y;
    }
  }

  lemma PutInjective(x: u64, y: u64)
    ensures PutU64(x) == PutU64(y) <==> x == y
  {
    hide PutU64, GetU64;
    U64RoundTrip(x);
    U64RoundTrip(y);
  }

  // ---------- lengths that cannot be confused ----------

  /** How many bytes the first k samples of a pad of this length hold. */
  function SampledUpTo(len: nat, k: nat): nat
    requires k <= SampleCount(len)
  {
    if k == 0 then 0
    else SampleStarts(len, k - 1); SampledUpTo(len, k - 1) + Min(32, len - (k - 1) * Stride(len))
  }

  function SampledSize(len: nat): nat { SampledUpTo(len, SampleCount(len)) }

  lemma {:induction false} SampledLength(pad: Bytes, k: nat)
    requires k <= SampleCount(|pad|)
    ensures |SamplesUpTo(pad, k)| == SampledUpTo(|pad|, k)
  {
    hide Stride, SampleCount;
    if k > 0 {
      SampledLength(pad, k - 1);
      SampleStarts(|pad|, k - 1);
    }
  }

  /** All samples but the last are full. */
  lemma {:induction false} FullBefore(len: nat, k: nat)
    requires k < SampleCount(len)
    ensures SampledUpTo(len, k) == 32 * k
  {
    hide SampleCount;
    if k > 0 {
      FullBefore(len, k - 1);
      SampleStarts(len, k);
      NextMultiple(k - 1, Stride(len));
    }
  }

  /** A pad whose samples are the bytes given. */
  function Spread(len: nat, data: Bytes): (pad: Bytes)
    ensures |pad| == len
  {
    seq(len, x requires 0 <= x < len => SpreadByte(len, data, x))
  }

  function SpreadByte(len: nat, data: Bytes, x: nat): byte {
    var k, r := x / Stride(len), x % Stride(len);
    if r < 32 && 32 * k + r < |data| then data[32 * k + r] else 0
  }

  lemma {:induction false} SamplesOfSpread(len: nat, data: Bytes, k: nat)
    requires |data| == SampledSize(len) && k <= SampleCount(len)
    ensures SampledUpTo(len, k) <= |data| && SamplesUpTo(Spread(len, data), k) == data[..SampledUpTo(len, k)]
  {
    hide Stride, SampleCount, Sample, Spread, SampledSize;
    if k == 0 {
      assert data[..0] == [];
    } else {
      SamplesOfSpread(len, data, k - 1);
      SampleStarts(len, k - 1);
      FullBefore(len, k - 1);
      SampledWithin(len, k);
      SampleOfSpread(len, data, k - 1);
      var lo, hi := SampledUpTo(len, k - 1), SampledUpTo(len, k);
      assert data[..lo] + data[lo..hi] == data[..hi];
    }
  }

  lemma {:induction false} SampledGrows(len: nat, k: nat, c: nat)
    requires k <= c <= SampleCount(len)
    ensures SampledUpTo(len, k) <= SampledUpTo(len, c)
    decreases c - k
  {
    hide Stride, SampleCount;
    if k < c {
      SampleStarts(len, c - 1);
      SampledGrows(len, k, c - 1);
    }
  }

  lemma SampledWithin(len: nat, k: nat)
    requires k <= SampleCount(len)
    ensures SampledUpTo(len, k) <= SampledSize(len)
  {
    SampledGrows(len, k, SampleCount(len));
  }

  lemma SampleOfSpread(len: nat, data: Bytes, k: nat)
    requires k * Stride(len) < len && 32 * k + Min(32, len - k * Stride(len)) <= |data|
    ensures Sample(Spread(len, data), k) == data[32 * k..32 * k + Min(32, len - k * Stride(len))]
  {
    hide Stride, SpreadByte;
    var pad, d, n := Spread(len, data), Stride(len), Min(32, len - k * Stride(len));
    var s := Sample(pad, k);
    assert |s| == n;
    forall r | 0 <= r < n ensures s[r] == data[32 * k + r] {
      assert s[r] == pad[k * d + r];
      SpreadAt(len, data, k, r);
    }
  }

  lemma SpreadAt(len: nat, data: Bytes, k: nat, r: nat)
    requires r < 32 && 32 * k + r < |data|
    ensures SpreadByte(len, data, k * Stride(len) + r) == data[32 * k + r]
  {
    hide Stride;
    DivModUnique(k, r, Stride(len));
  }

  /** Pads of these two lengths, under any salts, feed the same bytes only if they agree in samples, length and salt. */
  ghost predicate LengthsSeparate(len: nat, len2: nat)
    requires len < TWO64 && len2 < TWO64
  {
    forall p: Bytes, s: u64, q: Bytes, t: u64 ::
      |p| == len && |q| == len2 && InputOf(p, s) == InputOf(q, t) ==> Samples(p) == Samples(q) && len == len2 && s == t
  }

  /** They do just when their samples do not differ by the eight bytes of a length. */
  lemma LengthsSeparateIff(len: nat, len2: nat)
    requires len < TWO64 && len2 < TWO64
    ensures LengthsSeparate(len, len2) <==>
      SampledSize(len2) != SampledSize(len) + 8 && SampledSize(len) != SampledSize(len2) + 8
  {
    hide Samples, SampledSize, InputOf, PutU64;
    if SampledSize(len2) == SampledSize(len) + 8 {
      Confused(len, len2);
    } else if SampledSize(len) == SampledSize(len2) + 8 {
      Confused(len2, len);
    } else {
      forall p: Bytes, s: u64, q: Bytes, t: u64 | |p| == len && |q| == len2 && InputOf(p, s) == InputOf(q, t)
        ensures Samples(p) == Samples(q) && len == len2 && s == t
      {
        InputsEqualIff(p, s, q, t);
        SizeOfSamples(p);
        SizeOfSamples(q);
      }
    }
  }

  lemma SizeOfSamples(pad: Bytes)
    ensures |Samples(pad)| == SampledSize(|pad|)
  {
    hide SampledUpTo, SamplesUpTo, SampleCount;
    SampledLength(pad, SampleCount(|pad|));
  }

  lemma Confused(len: nat, len2: nat)
    requires len < TWO64 && len2 < TWO64 && SampledSize(len2) == SampledSize(len) + 8
    ensures !LengthsSeparate(len, len2) && !LengthsSeparate(len2, len)
  {
    hide SampledUpTo, SamplesUpTo, SampleCount, Spread, PutU64, InputOf;
    var p: Bytes := seq(len, _ => 0);
    SizeOfSamples(p);
    var data := Samples(p) + PutU64(len);
    var q := Spread(len2, data);
    SamplesOfSpread(len2, data, SampleCount(len2));
    assert data[..|data|] == data;
    NoneOfNothing();
    InputsEqualIff(p, len2, q, 0);
    assert Shifted(p, len2, q, 0);
    assert InputOf(p, len2) == InputOf(q, 0);
  }

  lemma NoneOfNothing()
    ensures SampledSize(0) == 0
  {
  }

  /** Pads of power-of-two length, 16 bytes or more, are never confused. */
  lemma PowersOfTwoSeparate(i: nat, j: nat)
    requires 4 <= i < 64 && 4 <= j < 64
    ensures ShiftLeft(1, i) < TWO64 && ShiftLeft(1, j) < TWO64
    ensures LengthsSeparate(ShiftLeft(1, i), ShiftLeft(1, j))
  {
    hide SampledSize, LengthsSeparate;
    PowerSize(i);
    PowerSize(j);
    LengthsSeparateIff(ShiftLeft(1, i), ShiftLeft(1, j));
  }

  lemma PowerSize(i: nat)
    requires 4 <= i < 64
    ensures ShiftLeft(1, i) < TWO64 && SampledSize(ShiftLeft(1, i)) % 16 == 0
  {
    hide SampledSize, ShiftLeft;
    var len := ShiftLeft(1, i);
    PowerValues();
    PowerMultiple(i, 4);
    PowerBound(i, 64);
    if i < 15 {
      PowerBound(i, 15);
      SampledAll(len);
    } else {
      PowerMultiple(i, 15);
      SampledEvenly(len);
    }
  }

  lemma PowerValues()
    ensures ShiftLeft(1, 4) == 16 && ShiftLeft(1, 15) == 32768 && ShiftLeft(1, 64) == TWO64
  {
    Pow2Values();
  }

  lemma SampledAll(len: nat)
    requires len < 33 * 1024
    ensures SampledSize(len) == len
  {
    hide SampledSize, Samples;
    var pad: Bytes := seq(len, _ => 0);
    SizeOfSamples(pad);
    SamplesAreAll(pad);
  }

  /** A pad of 1024 strides has 1024 full samples. */
  lemma SampledEvenly(len: nat)
    requires len >= 32768 && len % 1024 == 0
    ensures SampledSize(len) == 32768
  {
    hide SampledUpTo, SampleCount;
    var d := len / 1024;
    assert Stride(len) == d && len == 1024 * d;
    SampleStarts(len, 1023);
    SampleStarts(len, 1024);
    FullBefore(len, 1023);
    LastStep(len);
  }

  lemma LastStep(len: nat)
    requires SampleCount(len) == 1024 && len - 1023 * Stride(len) >= 32
    ensures SampledSize(len) == SampledUpTo(len, 1023) + 32
  {
    hide Stride, SampleCount;
  }

  lemma {:induction false} PowerMultiple(i: nat, j: nat)
    requires j <= i
    ensures ShiftLeft(1, j) > 0 && ShiftLeft(1, i) % ShiftLeft(1, j) == 0 && ShiftLeft(1, i) >= ShiftLeft(1, j)
  {
    PowerPositive(j);
    if j < i {
      PowerMultiple(i - 1, j);
      DoubleMultiple(ShiftLeft(1, i - 1), ShiftLeft(1, j));
    }
  }

  lemma DoubleMultiple(x: nat, d: nat)
    requires d > 0 && x % d == 0
    ensures (2 * x) % d == 0
  {
    var q := x / d;
    assert x == q * d;
    assert 2 * x == (2 * q) * d + 0;
    DivModUnique(2 * q, 0, d);
  }

  lemma {:induction false} PowerPositive(j: nat)
    ensures ShiftLeft(1, j) > 0
  {
    if j > 0 {
      PowerPositive(j - 1);
    }
  }

  lemma {:induction false} PowerBound(i: nat, j: nat)
    requires i < j
    ensures ShiftLeft(1, i) < ShiftLeft(1, j)
  {
    PowerPositive(i);
    if i < j - 1 {
      PowerBound(i, j - 1);
    }
    PowerPositive(j - 1);
  }

  /** The shortest pads of the miner can be confused: 64 bytes salted with 72, and 72 bytes unsalted. */
  lemma SixtyFourAndSeventyTwo(p: Bytes)
    requires |p| == 64
    ensures InputOf(p, 72) == InputOf(p + PutU64(64), 0)
  {
    hide PutU64, Samples;
    SamplesAreAll(p);
    SamplesAreAll(p + PutU64(64));
    InputsEqualIff(p, 72, p + PutU64(64), 0);
  }

  // ---------- the seal and the binding ----------

  /** The seal's input determines the ticket, and binds the rest as the unsealed input does. */
  lemma SealedInputsEqualIff(a: Bytes, len: u64, s: u64, ticket: Digest, b: Bytes, len2: u64, t: u64, ticket2: Digest)
    ensures SealedInput(a, len, s, ticket) == SealedInput(b, len2, t, ticket2)
      <==> ticket == ticket2 && UnsealedInput(a, len, s) == UnsealedInput(b, len2, t)
  {
    hide UnsealedInput, Ascii;
    var x, y := UnsealedInput(a, len, s), UnsealedInput(b, len2, t);
    SplitTail(x + ticket, Ascii("cpu-v5"), y + ticket2, Ascii("cpu-v5"));
    SplitTail(x, ticket, y, ticket2);
  }

  /** What binds the two lanes determines both digests, the salt, the length and the version. */
  lemma BoundInputsEqualIff(cpu: Digest, ticket: Digest, s: u64, len: u64, v5: bool,
                            cpu2: Digest, ticket2: Digest, t: u64, len2: u64, v5': bool)
    ensures BoundInput(cpu, ticket, s, len, if v5 then "v5" else "v4")
         == BoundInput(cpu2, ticket2, t, len2, if v5' then "v5" else "v4")
      <==> cpu == cpu2 && ticket == ticket2 && s == t && len == len2 && v5 == v5'
  {
    hide PutU64;
    var x, y := Ascii(if v5 then "v5" else "v4"), Ascii(if v5' then "v5" else "v4");
    assert x == y <==> v5 == v5' by {
      assert Ascii("v4")[1] == 52 && Ascii("v5")[1] == 53;
    }
    hide Ascii;
    SplitTail(cpu + ticket + PutU64(s) + PutU64(len), x, cpu2 + ticket2 + PutU64(t) + PutU64(len2), y);
    SplitTail(cpu + ticket + PutU64(s), PutU64(len), cpu2 + ticket2 + PutU64(t), PutU64(len2));
    SplitTail(cpu + ticket, PutU64(s), cpu2 + ticket2, PutU64(t));
    SplitTail(cpu, ticket, cpu2, ticket2);
    PutInjective(s, t);
    PutInjective(len, len2);
  }
}
