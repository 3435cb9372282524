/**
 The deterministic first model (crates/mesh-ai-v2/src/mlp.rs, q16.rs) and the weight box over
 whole training runs.
 */
module Genesis {
  import opened Machine
  import opened Q16
  import opened Network
  import opened Exactness
  import opened Job
  import opened Training
  import opened WeightCodec
  import TrainCpu

  const GENESIS_SEED: u64 := 0x4D45_5348_4252_5632

  /** A pseudo-random value in [-scale, scale) from the hash of seed, lane and index. */
  function SeedQ(h: Host, seed: u64, lane: u64, i: u64, scale: i32): i32 {
    var u := GetU32(h.hash(PutU64(seed) + PutU64(lane) + PutU64(i))[..4]);
    if 2 * scale <= 0 then 0 else Wrap32(u % (2 * scale) - scale)
  }

  lemma SeedInScale(h: Host, seed: u64, lane: u64, i: u64, scale: i32)
    requires 0 < scale
    ensures -scale <= SeedQ(h, seed, lane, i, scale) < scale
    ensures var u := GetU32(h.hash(PutU64(seed) + PutU64(lane) + PutU64(i))[..4]);
      (SeedQ(h, seed, lane, i, scale) + scale - u) % (2 * scale) == 0
  {
    hide PutU64, GetU32;
    var u := GetU32(h.hash(PutU64(seed) + PutU64(lane) + PutU64(i))[..4]);
    assert 0 <= u % (2 * scale) < 2 * scale;
    RemainderOnly(u, 2 * scale);
  }

  lemma RemainderOnly(u: nat, d: nat)
    requires d > 0
    ensures (u % d - u) % d == 0
  {
    var q := u / d;
    assert u == q * d + u % d;
    assert u % d - u == -q * d;
    MultipleRemainder(-q, d);
  }

  lemma MultipleRemainder(k: int, d: nat)
    requires d > 0
    ensures (k * d) % d == 0
  {
    var r := (k * d) % d;
    var q := (k * d) / d;
    assert k * d == q * d + r;
    assert (k - q) * d == r;
    MulGrows(k - q, d);
  }

  function Seeded(h: Host, lane: u64, scale: i32, n: u64): (v: Vec)
    ensures |v| == n
  {
    seq<i32>(n, i requires 0 <= i < n => SeedQ(h, GENESIS_SEED, lane, i, scale))
  }

  function GenesisNet(h: Host): Net {
    Model(Seeded(h, 1, 1024, N_W1), Seeded(h, 2, 256, H1),
          Seeded(h, 3, 2048, N_W2), Seeded(h, 4, 512, H2),
          Seeded(h, 5, 4096, N_W3), Seeded(h, 6, 1024, OUT))
  }

  method FillSeeded(h: Host, lane: u64, scale: i32, n: u64) returns (w: array<i32>)
    ensures fresh(w) && w[..] == Seeded(h, lane, scale, n)
  {
    hide SeedQ;
    w := new i32[n](_ => 0);
    for i := 0 to n
      invariant forall l :: 0 <= l < i ==> w[l] == Seeded(h, lane, scale, n)[l]
    {
      w[i] := SeedQ(h, GENESIS_SEED, lane, i, scale);
    }
  }

  /** `genesis_weights`: scales are 1/64, 1/32 and 1/16 for matrices, a quarter of that for biases. */
  method GenesisBlob(h: Host) returns (blob: Bytes)
    ensures blob == EncodeWeights(GenesisNet(h))
  {
    hide Seeded;
    var w1 := FillSeeded(h, 1, ONE / 64, N_W1);
    var b1 := FillSeeded(h, 2, ONE / 64 / 4, H1);
    var w2 := FillSeeded(h, 3, ONE / 32, N_W2);
    var b2 := FillSeeded(h, 4, ONE / 32 / 4, H2);
    var w3 := FillSeeded(h, 5, ONE / 16, N_W3);
    var b3 := FillSeeded(h, 6, ONE / 16 / 4, OUT);
    var m := new TrainCpu.Mlp(w1, b1, w2, b2, w3, b3);
    blob := m.ToWeights();
  }

  lemma SeededInBox(h: Host, lane: u64, scale: i32, n: u64)
    requires 0 < scale <= BOX
    ensures VecInBox(Seeded(h, lane, scale, n))
  {
    hide SeedQ;
    forall i | 0 <= i < n ensures InBox(Seeded(h, lane, scale, n)[i]) {
      SeedInScale(h, GENESIS_SEED, lane, i, scale);
    }
  }

  lemma GenesisInBox(h: Host)
    ensures NetInBox(GenesisNet(h))
  {
    hide Seeded, VecInBox;
    SeededInBox(h, 1, 1024, N_W1);
    SeededInBox(h, 2, 256, H1);
    SeededInBox(h, 3, 2048, N_W2);
    SeededInBox(h, 4, 512, H2);
    SeededInBox(h, 5, 4096, N_W3);
    SeededInBox(h, 6, 1024, OUT);
  }

  lemma PixelInRange(p: byte)
    ensures 0 <= PixelToQ(p) <= ONE
    ensures PixelToQ(p) == ONE <==> p == 255
    ensures PixelToQ(p) == 0 <==> p == 0
  {
  }

  /** The trainer's inputs satisfy what the exactness lemmas ask of inputs. */
  lemma SamplesArePixels(blob: Bytes, idx: nat)
    requires Readable(blob) && idx < SAMPLE_COUNT
    ensures Pixels(SamplePixels(blob, idx))
  {
    hide PixelToQ;
    forall i | 0 <= i < INPUT ensures 0 <= SamplePixels(blob, idx)[i] <= ONE {
      PixelInRange(blob[DATASET_HEADER + idx * RECORD + 1 + i]);
    }
  }

  /** An accepted job trains at least once, so it ends in the box from any weights whatever. */
  lemma TrainingEndsInBox(m: Net, blob: Bytes, s: Spec, lr: i32, n: nat)
    requires Readable(blob) && Normal(s) && (n > 0 || NetInBox(m))
    ensures NetInBox(TrainFor(m, blob, s, lr, n).net)
  {
    hide NetInBox, Step, StepLoss, Readable;
    if n > 0 {
      var idx := StepIndex(s, n - 1);
      StepEndsInBox(TrainFor(m, blob, s, lr, n - 1).net, SamplePixels(blob, idx), SampleLabel(blob, idx), lr);
    }
  }

  /**
   Step n of an accepted job is exact, and every weight's update at its rate is exact descent, if the
   job started in the box, and from the second step on wherever it started.
   */
  lemma EveryStepExact(m: Net, blob: Bytes, s: Spec, n: nat)
    requires Readable(blob) && Normal(s) && n < s.steps && (n > 0 || NetInBox(m))
    ensures var lr := QFromMilli(s.lrMilli);
      var now := TrainFor(m, blob, s, lr, n).net;
      var idx := StepIndex(s, n);
      && StepExact(now, SamplePixels(blob, idx), SampleLabel(blob, idx), lr)
      && forall w: i32, g: i32 :: Nudge(w, lr, g) == Clamp(w - (lr * g) / 0x1_0000, -BOX, BOX)
  {
    hide NetInBox, StepExact, TrainFor, SamplePixels, SampleLabel, Nudge, QFromMilli, Pixels;
    var lr := QFromMilli(s.lrMilli);
    JobRateIsSmall(s.lrMilli);
    TrainingEndsInBox(m, blob, s, lr, n);
    var idx := StepIndex(s, n);
    SamplesArePixels(blob, idx);
    StepIsExact(TrainFor(m, blob, s, lr, n).net, SamplePixels(blob, idx), SampleLabel(blob, idx), lr);
    forall w: i32, g: i32 ensures Nudge(w, lr, g) == Clamp(w - (lr * g) / 0x1_0000, -BOX, BOX) {
      NudgeIsDescent(w, lr, g);
    }
  }

  /** A weight blob whose every weight is in the box. */
  ghost predicate BoxedBlob(w: Bytes) {
    DecodeWeights(w).Some? && NetInBox(DecodeWeights(w).value)
  }

  lemma JobOutputBoxed(h: Host, weights: Bytes, input: Bytes)
    requires RunJob(h, weights, input).Ok?
    ensures BoxedBlob(RunJob(h, weights, input).value.weights)
    ensures |RunJob(h, weights, input).value.weights| == BLOB_LEN
  {
    hide NetInBox, ValidDataset, DecodeWeights, EncodeWeights, ParseJob, Accuracy, TrainFor, QFromMilli, Normal;
    var s := ParseJob(input).value;
    AcceptedIsNormal(input);
    TrainsAtLeastOnce(s);
    var m := DecodeWeights(weights).value;
    TrainingEndsInBox(m, h.dataset, s, QFromMilli(s.lrMilli), s.steps);
    var net := TrainFor(m, h.dataset, s, QFromMilli(s.lrMilli), s.steps).net;
    WeightsRoundTrip(net, []);
    assert EncodeWeights(net) + [] == EncodeWeights(net);
  }

  lemma TrainsAtLeastOnce(s: Spec)
    requires Normal(s)
    ensures s.steps > 0
  {
  }

  lemma GenesisBoxed(h: Host)
    ensures BoxedBlob(EncodeWeights(GenesisNet(h)))
  {
    hide NetInBox, DecodeWeights, EncodeWeights, GenesisNet;
    GenesisInBox(h);
    WeightsRoundTrip(GenesisNet(h), []);
    assert EncodeWeights(GenesisNet(h)) + [] == EncodeWeights(GenesisNet(h));
  }
}
