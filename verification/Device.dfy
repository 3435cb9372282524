/**
 A whole batch on a GPU, from filled pads to the answer (apps/mesh-miner-gpu/src/engine.rs and
 opencl_mix.rs, `mix_filled_pads`). Both kinds of device answer for the winners of a node, except
 that they count the rounds in 32 bits.
 */
module Device {
  import opened Machine
  import opened Abort
  import opened Pads
  import opened Words
  import opened Wave
  import opened Mix
  import opened Fold
  import opened Node
  import opened HostFold

  const MIX_CHUNK: nat := 65536

  /** The parameters a device works by: `mix_rounds as u32`. */
  function DeviceParams(p: Params): Params { p.(mixRounds := Truncated(p.mixRounds)) }

  function DevicePuzzle(z: Puzzle): Puzzle { z.(p := DeviceParams(z.p)) }

  /** A caller who keeps the rounds below 2^32 gets a device that works by the node's own parameters. */
  lemma SmallRoundsSamePuzzle(z: Puzzle)
    requires z.p.mixRounds < WINDOW
    ensures DevicePuzzle(z) == z
  {
  }

  // ---------- what the extract kernel leaves behind ----------

  /** Pad s's samples, packed, in its slot of the sample buffer. */
  ghost predicate SlotPacked(samples: Bytes, dev: Bytes, len: nat, pitch: nat, s: nat) {
    && s * len + len <= |dev| && s * pitch + pitch <= |samples|
    && Packed(PadAt(samples, pitch, s), PadAt(dev, len, s))
  }

  /** Pad s's wave for the program given, in its 32 bytes of the wave buffer. */
  ghost predicate SlotWaved(waves: Bytes, dev: Bytes, len: nat, prog: Program, s: nat)
    requires WaveSize(len)
  {
    && s * len + len <= |dev| && s * 32 + 32 <= |waves|
    && PadAt(waves, 32, s) == LanesIn(prog, PadAt(dev, len, s), LANES)
  }

  /** The extract kernel over the batch: samples always, waves when asked for. */
  method ExtractBatch(dev: array<byte>, len: nat, n: nat, progs: seq<Program>, doWave: bool)
    returns (samples: array<byte>, waves: array<byte>)
    requires WaveSize(len) && n * len <= dev.Length && (doWave ==> |progs| == n)
    ensures fresh(samples) && fresh(waves)
    ensures waves.Length == n * 32
    ensures forall s :: 0 <= s < n ==> SlotPacked(samples[..], dev[..], len, 32 * SampleCount(len), s)
    ensures doWave ==> forall s :: 0 <= s < n ==> SlotWaved(waves[..], dev[..], len, progs[s], s)
  {
    hide SlotPacked, SlotWaved, SampleCount, WaveSize;
    var pitch := 32 * SampleCount(len);
    samples, waves := new byte[n * pitch], new byte[n * 32];
    for s := 0 to n
      invariant forall t :: 0 <= t < s ==> SlotPacked(samples[..], dev[..], len, pitch, t)
    {
      PadFits(s, n, len);
      PadFits(s, n, pitch);
      ExtractSlot(dev[..], len, s, samples, pitch);
    }
    ghost var packed := samples[..];
    if doWave {
      for s := 0 to n
        invariant samples[..] == packed
        invariant forall t :: 0 <= t < s ==> SlotWaved(waves[..], dev[..], len, progs[t], t)
      {
        PadFits(s, n, len);
        WaveSlot(dev, len, s, progs, waves);
      }
    }
  }

  method ExtractSlot(dev: Bytes, len: nat, s: nat, samples: array<byte>, pitch: nat)
    requires s * len + len <= |dev| && pitch == 32 * SampleCount(len) && s * pitch + pitch <= samples.Length
    modifies samples
    requires forall t :: 0 <= t < s ==> SlotPacked(samples[..], dev, len, pitch, t)
    ensures forall t :: 0 <= t <= s ==> SlotPacked(samples[..], dev, len, pitch, t)
  {
    hide SlotPacked, PadAt, SampleCount, Packed;
    var base := s * pitch;
    ghost var before := samples[..];
    PackSamples(PadAt(dev, len, s), samples, base);
    assert samples[base..base + pitch] == samples[..][base..base + pitch];
    PackedSlot(samples[..], dev, len, pitch, s);
    forall t | 0 <= t < s ensures SlotPacked(samples[..], dev, len, pitch, t) {
      PackedKept(before, samples[..], dev, len, pitch, s, t);
    }
  }

  lemma PackedSlot(samples: Bytes, dev: Bytes, len: nat, pitch: nat, s: nat)
    requires s * len + len <= |dev| && s * pitch + pitch <= |samples|
    requires Packed(samples[s * pitch..s * pitch + pitch], PadAt(dev, len, s))
    ensures SlotPacked(samples, dev, len, pitch, s)
  {
    hide Packed;
  }

  method WaveSlot(dev: array<byte>, len: nat, s: nat, progs: seq<Program>, waves: array<byte>)
    requires WaveSize(len) && s * len + len <= dev.Length && s * 32 + 32 <= waves.Length && dev != waves && s < |progs|
    requires forall t :: 0 <= t < s ==> SlotWaved(waves[..], dev[..], len, progs[t], t)
    modifies waves
    ensures forall t :: 0 <= t <= s ==> SlotWaved(waves[..], dev[..], len, progs[t], t)
  {
    hide LanesIn, SlotWaved;
    var base, at := s * len, s * 32;
    ghost var pads, before := dev[..], waves[..];
    WaveOnDevice(dev, base, len, progs[s], waves, at);
    assert dev[..] == pads;
    assert pads[base..base + len] == dev[base..base + len] && waves[..][at..at + 32] == waves[at..at + 32];
    WavedSlot(waves[..], pads, len, progs[s], s);
    forall t | 0 <= t < s ensures SlotWaved(waves[..], pads, len, progs[t], t) {
      WavedKept(before, waves[..], pads, len, progs[t], s, t);
    }
  }

  lemma WavedSlot(waves: Bytes, dev: Bytes, len: nat, prog: Program, s: nat)
    requires WaveSize(len) && s * len + len <= |dev| && s * 32 + 32 <= |waves|
    requires waves[s * 32..s * 32 + 32] == LanesIn(prog, dev[s * len..s * len + len], LANES)
    ensures SlotWaved(waves, dev, len, prog, s)
  {
    hide LanesIn;
  }

  /** Work on slot s leaves the earlier slot t alone. */
  lemma PackedKept(before: Bytes, after: Bytes, dev: Bytes, len: nat, pitch: nat, s: nat, t: nat)
    requires t < s && |before| == |after|
    requires forall p :: 0 <= p < |after| && !(s * pitch <= p < s * pitch + pitch) ==> after[p] == before[p]
    requires SlotPacked(before, dev, len, pitch, t)
    ensures SlotPacked(after, dev, len, pitch, t)
  {
    hide Packed, PadAt;
    PadFits(t, s, pitch);
    PadKept(before, after, pitch, s, t);
  }

  lemma WavedKept(before: Bytes, after: Bytes, dev: Bytes, len: nat, prog: Program, s: nat, t: nat)
    requires WaveSize(len) && t < s && |before| == |after|
    requires forall p :: 0 <= p < |after| && !(s * 32 <= p < s * 32 + 32) ==> after[p] == before[p]
    requires SlotWaved(before, dev, len, prog, t)
    ensures SlotWaved(after, dev, len, prog, t)
  {
    hide LanesIn, PadAt;
    PadFits(t, s, 32);
    PadKept(before, after, 32, s, t);
  }

  // ---------- CUDA ----------

  /** Everything the host gets back of the mixed pads: packed samples, and from version 4 on their waves. */
  ghost predicate Extracted(h: Hash, p: Params, samples: Bytes, waves: Bytes, dev: Bytes, len: nat, n: nat)
    requires WaveSize(len)
  {
    forall s :: 0 <= s < n ==> SlotExtracted(h, p, samples, waves, dev, len, s)
  }

  ghost predicate SlotExtracted(h: Hash, p: Params, samples: Bytes, waves: Bytes, dev: Bytes, len: nat, s: nat)
    requires WaveSize(len)
  {
    && SlotPacked(samples, dev, len, 32 * SampleCount(len), s)
    && s * 32 + 32 <= |waves|
    && (p.version >= 4 ==> PadAt(waves, 32, s) == WaveOf(h, PadAt(dev, len, s), p.salt))
  }

  /** The host downloads the pads' heads, makes their programs, and has the device extract. */
  method ExtractFromDevice(h: Hash, p: Params, dev: array<byte>, len: nat, n: nat)
    returns (samples: array<byte>, waves: array<byte>)
    requires WaveSize(len) && n * len <= dev.Length
    ensures fresh(samples) && fresh(waves)
    ensures Extracted(h, p, samples[..], waves[..], dev[..], len, n)
  {
    hide SlotPacked, LanesIn, ProgramOf, ProgramInput;
    var doWave := p.version >= 4;
    var progs: seq<Program> := [];
    if doWave {
      for s := 0 to n
        invariant |progs| == s
        invariant forall t :: 0 <= t < s ==> HeadProgram(h, p, dev[..], len, t, progs[t])
      {
        PadFits(s, n, len);
        var head := dev[s * len..s * len + 32];
        assert head == dev[..][s * len..s * len + 32];
        HeadOfSlot(dev[..], len, s);
        var prog := ProgramWords(h, p.salt, head);
        progs := progs + [prog];
      }
    }
    samples, waves := ExtractBatch(dev, len, n, progs, doWave);
    forall s | 0 <= s < n ensures SlotExtracted(h, p, samples[..], waves[..], dev[..], len, s) {
      PadFits(s, n, 32);
      if doWave {
        assert SlotWaved(waves[..], dev[..], len, progs[s], s) && HeadProgram(h, p, dev[..], len, s, progs[s]);
      }
    }
  }

  lemma HeadOfSlot(dev: Bytes, len: nat, s: nat)
    requires WaveSize(len) && s * len + len <= |dev|
    ensures PadAt(dev, len, s)[..32] == dev[s * len..s * len + 32]
  {
    SliceOfSlice(dev, s * len, s * len + len, 0, 32);
  }

  /** The program of slot t is the one its own head and the salt make. */
  ghost predicate HeadProgram(h: Hash, p: Params, dev: Bytes, len: nat, t: nat, prog: Program)
    requires WaveSize(len)
  {
    t * len + len <= |dev| && prog == ProgramOf(h(ProgramInput(p.salt, PadAt(dev, len, t)[..32])))
  }

  /** The digest of slot s, from what came back. */
  method FoldExtract(h: Hash, p: Params, samples: Bytes, waves: Bytes, ghost dev: Bytes, len: nat, s: nat)
    returns (pow: Digest)
    requires WaveSize(len) && SlotExtracted(h, p, samples, waves, dev, len, s)
    ensures s * len + len <= |dev| && pow == FoldPow(h, p, PadAt(dev, len, s))
  {
    hide Packed, FoldPow, SampleCount, WaveOf;
    var packed, acc := PadAt(samples, 32 * SampleCount(len), s), PadAt(waves, 32, s);
    pow := FoldFromExtract(h, p, packed, acc, len, PadAt(dev, len, s));
  }

  /** The audit of the first batch, device digest against CPU digest of the downloaded pad, always passes. */
  method AuditFirstPad(h: Hash, p: Params, samples: Bytes, waves: Bytes, dev: Bytes, len: nat) returns (agree: bool)
    requires WaveSize(len) && SlotExtracted(h, p, samples, waves, dev, len, 0)
    ensures agree
  {
    hide Packed, FoldPow, SampleCount, WaveOf;
    var cpu := FoldOnCpu(h, p, PadAt(dev, len, 0));
    var extracted := FoldExtract(h, p, samples, waves, dev, len, 0);
    agree := cpu == extracted;
  }

  /** The CUDA fold: every pad in turn, keeping the smallest winning nonce. */
  method FoldInOrder(z: Puzzle, samples: Bytes, waves: Bytes, ghost dev: Bytes, len: nat, n: nat, start: nat,
                     flags: Flags)
    returns (r: Outcome)
    requires WaveSize(len) && start + n <= MAX_U64 && Extracted(z.h, z.p, samples, waves, dev, len, n)
    modifies flags
    ensures flags.Later(old(flags.raised), old(flags.side))
    ensures !r.Failed?
    ensures r.Found? ==> start <= r.nonce < start + n && MixedWins(z, dev, len)(r.nonce - start)
    ensures r.Found? ==> NoneBelow(MixedWins(z, dev, len), r.nonce - start)
    ensures r.Nothing? && !flags.raised ==> NoneBelow(MixedWins(z, dev, len), n)
  {
    hide SlotExtracted, FoldPow;
    ghost var wins := MixedWins(z, dev, len);
    var found: u64 := MAX_U64;
    for i := 0 to n
      invariant flags.Later(old(flags.raised), old(flags.side))
      invariant found == MAX_U64 ==> NoneBelow(wins, i)
      invariant found != MAX_U64 ==> start <= found < start + i && wins(found - start)
      invariant found != MAX_U64 ==> NoneBelow(wins, found - start)
    {
      var seen := flags.Poll();
      if seen {
        return Nothing;
      }
      assert SlotExtracted(z.h, z.p, samples, waves, dev, len, i);
      var pow := FoldExtract(z.h, z.p, samples, waves, dev, len, i);
      if z.meets(pow) {
        var nonce := start + i;
        if found == MAX_U64 || nonce < found {
          found := nonce;
        }
      }
    }
    r := if found == MAX_U64 then Nothing else Found(found);
  }

  /** `mix_filled_pads` in full: the least winner of the batch, or none. */
  method MixFilledPadsOnCuda(z: Puzzle, works: bool, host: Bytes, len: nat, n: nat, start: nat, flags: Flags)
    returns (r: Outcome)
    requires Minable(z.p, len) && n > 0 && start + n <= MAX_U64
    modifies flags
    ensures flags.Later(old(flags.raised), old(flags.side))
    ensures |host| < n * len ==> r.Failed?
    ensures r.Failed? ==> !works || |host| < n * len || len < 64
    ensures r.Found? ==> start <= r.nonce < start + n && SlotWins(DevicePuzzle(z), host, len)(r.nonce - start)
    ensures r.Found? ==> NoneBelow(SlotWins(DevicePuzzle(z), host, len), r.nonce - start)
    ensures r.Nothing? && !flags.raised ==> NoneBelow(SlotWins(DevicePuzzle(z), host, len), n)
  {
    hide SlotWins, MixedWins, PadMixed, Extracted, SlotExtracted, DevicePuzzle, NoneBelow;
    var breaks: bool := *;
    if len < 64 || |host| < n * len || (breaks && !works) {
      return Failed;
    }
    var dev := new byte[n * len](i requires 0 <= i < n * len => host[i]);
    var states := new u64[n];
    ghost var uploaded := dev[..];
    assert uploaded == host[..n * len];
    var ok := MixOnDevice(dev, states, len, z.p.mixRounds, n, MIX_CHUNK, z.p.version, flags);
    if !ok {
      return Nothing;
    }
    var seen := flags.Poll();
    if seen {
      return Nothing;
    }
    ghost var mixed := dev[..];
    var samples, waves := ExtractFromDevice(z.h, z.p, dev, len, n);
    assert dev[..] == mixed;
    FirstExtracted(z.h, z.p, samples[..], waves[..], mixed, len, n);
    var agree := AuditFirstPad(z.h, z.p, samples[..], waves[..], dev[..], len);
    assert agree;
    r := FoldInOrder(z, samples[..], waves[..], mixed, len, n, start, flags);
    MixedMeaning(z, host, uploaded, mixed, len, n);
    if r.Found? {
      SameBelow(MixedWins(z, mixed, len), SlotWins(DevicePuzzle(z), host, len), n, r.nonce - start);
    } else if !flags.raised {
      SameBelow(MixedWins(z, mixed, len), SlotWins(DevicePuzzle(z), host, len), n, n);
    }
  }

  lemma FirstExtracted(h: Hash, p: Params, samples: Bytes, waves: Bytes, dev: Bytes, len: nat, n: nat)
    requires WaveSize(len) && n > 0 && Extracted(h, p, samples, waves, dev, len, n)
    ensures SlotExtracted(h, p, samples, waves, dev, len, 0)
  {
    hide SlotExtracted;
  }

  lemma SameBelow(f: nat -> bool, g: nat -> bool, n: nat, m: nat)
    requires m <= n && NoneBelow(f, m) && forall i :: 0 <= i < n ==> (f(i) <==> g(i))
    ensures NoneBelow(g, m)
  {
  }

  /** A slot that the device has mixed wins just when its filled pad does, by the device's parameters. */
  lemma MixedMeaning(z: Puzzle, host: Bytes, uploaded: Bytes, mixed: Bytes, len: nat, n: nat)
    requires Minable(z.p, len) && n * len <= |host| && uploaded == host[..n * len]
    requires forall s :: 0 <= s < n ==> PadMixed(uploaded, mixed, len, s, DeviceRounds(z.p.mixRounds), z.p.version)
    ensures forall i :: 0 <= i < n ==> (MixedWins(z, mixed, len)(i) <==> SlotWins(DevicePuzzle(z), host, len)(i))
  {
    hide MixedWins, SlotWins, PadMixed, DevicePuzzle;
    forall i | 0 <= i < n ensures MixedWins(z, mixed, len)(i) <==> SlotWins(DevicePuzzle(z), host, len)(i) {
      MixedSlotMeaning(z, host, uploaded, mixed, len, n, i);
    }
  }

  lemma MixedSlotMeaning(z: Puzzle, host: Bytes, uploaded: Bytes, mixed: Bytes, len: nat, n: nat, i: nat)
    requires Minable(z.p, len) && i < n && n * len <= |host| && uploaded == host[..n * len]
    requires PadMixed(uploaded, mixed, len, i, DeviceRounds(z.p.mixRounds), z.p.version)
    ensures MixedWins(z, mixed, len)(i) <==> SlotWins(DevicePuzzle(z), host, len)(i)
  {
    hide Mixed, FoldBy, WaveFor, Samples;
    PadFits(i, n, len);
    var pad := PadAt(host, len, i);
    assert PadAt(uploaded, len, i) == pad;
    WaveForSame(z.h, z.p, PadAt(mixed, len, i));
    FoldBySame(z.h, z.p, Samples(PadAt(mixed, len, i)), WaveFor(z.h, z.p, PadAt(mixed, len, i)), len);
    assert NodeDigest(z.h, DeviceParams(z.p), pad) == FoldPow(z.h, z.p, PadAt(mixed, len, i));
  }

  /** The fold does not look at the rounds. */
  lemma WaveForSame(h: Hash, p: Params, pad: Bytes)
    requires Foldable(p, |pad|)
    ensures Foldable(DeviceParams(p), |pad|) && WaveFor(h, DeviceParams(p), pad) == WaveFor(h, p, pad)
  {
    hide WaveOf;
  }

  lemma FoldBySame(h: Hash, p: Params, samples: Bytes, acc: Digest, len: u64)
    ensures FoldBy(h, DeviceParams(p), samples, acc, len) == FoldBy(h, p, samples, acc, len)
  {
    hide SealedInput, BoundInput, UnsealedInput;
  }

  // ---------- OpenCL ----------

  /** Slot i of a buffer of which the first n pads are mixed on the device, and any others folded as they are. */
  function FoldedWins(z: Puzzle, host: Bytes, len: nat, n: nat): nat -> bool {
    (i: nat) => if i < n then SlotWins(DevicePuzzle(z), host, len)(i) else MixedWins(z, host, len)(i)
  }

  /**
   `mix_filled_pads` with OpenCL: one launch per pass, the pads read back over the host buffer, and
   every whole pad of that buffer folded by host threads.
   */
  method MixFilledPadsOnOpenCl(z: Puzzle, works: bool, host: Bytes, len: nat, n: nat, start: nat, threads: nat,
                               flags: Flags)
    returns (r: Outcome)
    requires Minable(z.p, len) && n > 0 && threads > 0 && start + PadCount(|host|, len) <= MAX_U64
    modifies flags
    ensures flags.Later(old(flags.raised), old(flags.side))
    ensures |host| < n * len ==> r.Failed?
    ensures r.Failed? ==> !works || |host| < n * len || len < 64
    ensures r.Found? ==>
      start <= r.nonce < start + PadCount(|host|, len) && FoldedWins(z, host, len, n)(r.nonce - start)
    ensures r.Nothing? && !flags.raised ==> NoneBelow(FoldedWins(z, host, len, n), PadCount(|host|, len))
  {
    hide SlotWins, MixedWins, PadMixed, DevicePuzzle, FoldedWins, PadCount, NoneBelow;
    var breaks: bool := *;
    if len < 64 || |host| < n * len || (breaks && !works) {
      return Failed;
    }
    var seen := flags.Poll();
    if seen {
      return Nothing;
    }
    var dev := new byte[n * len](i requires 0 <= i < n * len => host[i]);
    var states := new u64[n];
    ghost var uploaded := dev[..];
    assert uploaded == host[..n * len];
    var rounds: u32 := Truncated(z.p.mixRounds);
    var ok := MixOnDevice(dev, states, len, z.p.mixRounds, n, Max(rounds, 1), z.p.version, flags);
    if !ok {
      return Nothing;
    }
    ghost var mixed := dev[..];
    var back := dev[..] + host[n * len..];
    var found := FoldHostPads(z, back, len, start, threads, flags);
    MixedMeaning(z, host, uploaded, mixed, len, n);
    BackMeaning(z, host, mixed, back, len, n);
    r := match found case None => Nothing case Some(x) => Found(x);
    if r.Nothing? && !flags.raised {
      SameBelow(MixedWins(z, back, len), FoldedWins(z, host, len, n), PadCount(|host|, len), PadCount(|host|, len));
    }
  }

  lemma BackMeaning(z: Puzzle, host: Bytes, mixed: Bytes, back: Bytes, len: nat, n: nat)
    requires n * len == |mixed| && |mixed| <= |host| && back == mixed + host[|mixed|..]
    requires forall i :: 0 <= i < n ==> (MixedWins(z, mixed, len)(i) <==> SlotWins(DevicePuzzle(z), host, len)(i))
    ensures forall i :: 0 <= i < PadCount(|host|, len) ==>
      (MixedWins(z, back, len)(i) <==> FoldedWins(z, host, len, n)(i))
  {
    hide SlotWins, DevicePuzzle, PadCount, MixedWins, PadAt;
    forall i | 0 <= i < PadCount(|host|, len)
      ensures MixedWins(z, back, len)(i) <==> FoldedWins(z, host, len, n)(i)
    {
      WholePads(|host|, len);
      PadFits(i, PadCount(|host|, len), len);
      if i < n {
        PadFits(i, n, len);
        PadOfPrefix(mixed, host[|mixed|..], len, i);
        SamePadWins(z, back, mixed, len, i);
      } else {
        PadOfSuffix(mixed, host, len, n, i);
        SamePadWins(z, back, host, len, i);
      }
    }
  }

  lemma SamePadWins(z: Puzzle, a: Bytes, b: Bytes, len: nat, i: nat)
    requires i * len + len <= |a| && i * len + len <= |b| && PadAt(a, len, i) == PadAt(b, len, i)
    ensures MixedWins(z, a, len)(i) <==> MixedWins(z, b, len)(i)
  {
    hide FoldPow;
  }

  lemma PadOfSuffix(mixed: Bytes, host: Bytes, len: nat, n: nat, i: nat)
    requires n * len == |mixed| && |mixed| <= |host| && n <= i && i * len + len <= |host|
    ensures PadAt(mixed + host[|mixed|..], len, i) == PadAt(host, len, i)
  {
    MulOrder(n, i, len);
  }
}
