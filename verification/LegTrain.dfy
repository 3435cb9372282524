/**
 A guardian's network as its blob and its training job see it (crates/mesh-ai/src/legs.rs): 1396
 doubles, known here by their bits. What one floating-point step and the final accuracy compute
 is left open; the order of the steps, the samples they see and the blob are not.
 */
module LegTrain {
  import opened Machine
  import opened Text
  import opened LegJob
  import opened Protocol

  const LEG_FLOATS: nat := 1396
  const LEG_MAGIC_LEN: nat := 9
  const LEG_HEADER_LEN: nat := 13
  const LEG_BLOB_LEN: nat := LEG_HEADER_LEN + 8 * LEG_FLOATS

  type Doubles = seq<u64>

  type Params = p: Doubles | |p| == LEG_FLOATS witness seq(LEG_FLOATS, _ => 0)

  datatype LegFit = LegFit(params: Params, lossBits: u64)

  /** Loss and accuracy are doubles too. */
  datatype LegReport = LegReport(lossBits: u64, accuracyBits: u64)

  /**
   `step(params, leg, epoch, index, rate in thousandths)` is one training step, `score(params, leg,
   epoch, indices)` the accuracy, `first(leg)` the first model.
   */
  datatype LegHost = LegHost(
    hash: Bytes -> Digest,
    step: (Params, LegId, u64, u32, u32) -> LegFit,
    score: (Params, LegId, u64, seq<u32>) -> u64,
    first: LegId -> Params)

  // ---------- the blob ----------

  function LegMagic(): (b: Bytes)
    ensures |b| == LEG_MAGIC_LEN
  {
    Ascii("MESHLEGv1")
  }

  function LegHeader(): (b: Bytes)
    ensures |b| == LEG_HEADER_LEN
  {
    LegMagic() + PutU32(LEG_FLOATS)
  }

  function EncodeDoubles(v: Doubles): (b: Bytes)
    ensures |b| == 8 * |v|
  {
    if v == [] then [] else EncodeDoubles(v[..|v| - 1]) + PutU64(v[|v| - 1])
  }

  function DoubleAt(b: Bytes, i: nat): (w: Bytes)
    requires 8 * i + 8 <= |b|
    ensures |w| == 8
  {
    b[8 * i..8 * i + 8]
  }

  function DecodeDoubles(b: Bytes, n: nat): (v: Doubles)
    requires |b| >= 8 * n
    ensures |v| == n
  {
    seq(n, i requires 0 <= i < n => GetU64(DoubleAt(b, i)))
  }

  function EncodeLegWeights(p: Params): (b: Bytes)
    ensures |b| == LEG_BLOB_LEN
  {
    LegHeader() + EncodeDoubles(p)
  }

  function DecodeLegWeights(b: Bytes): Option<Params> {
    if |b| < LEG_BLOB_LEN || b[..LEG_MAGIC_LEN] != LegMagic() then None
    else
      var n := GetU32(b[LEG_MAGIC_LEN..LEG_HEADER_LEN]);
      if n != LEG_FLOATS || |b| < LEG_HEADER_LEN + n * 8 then None
      else Some(DecodeDoubles(b[LEG_HEADER_LEN..], LEG_FLOATS))
  }

  lemma {:induction false} EncodedDoubleAt(v: Doubles, tail: Bytes, i: nat)
    requires i < |v|
    ensures DoubleAt(EncodeDoubles(v) + tail, i) == PutU64(v[i])
  {
    hide PutU64;
    var last := PutU64(v[|v| - 1]);
    assert EncodeDoubles(v) + tail == EncodeDoubles(v[..|v| - 1]) + (last + tail);
    if i < |v| - 1 {
      EncodedDoubleAt(v[..|v| - 1], last + tail, i);
    }
  }

  /** Decoding undoes encoding; bytes after the blob are ignored. */
  lemma LegWeightsRoundTrip(p: Params, tail: Bytes)
    ensures DecodeLegWeights(EncodeLegWeights(p) + tail) == Some(p)
  {
    hide GetU32, PutU32, LegMagic, EncodeDoubles, DecodeDoubles;
    var b := EncodeLegWeights(p) + tail;
    assert b[..LEG_MAGIC_LEN] == LegMagic();
    assert b[LEG_MAGIC_LEN..LEG_HEADER_LEN] == PutU32(LEG_FLOATS);
    U32RoundTrip(LEG_FLOATS);
    assert b[LEG_HEADER_LEN..] == EncodeDoubles(p) + tail;
    DoublesRoundTrip(p, tail);
  }

  lemma DoublesRoundTrip(v: Doubles, tail: Bytes)
    ensures DecodeDoubles(EncodeDoubles(v) + tail, |v|) == v
  {
    hide GetU64, PutU64, EncodeDoubles, DoubleAt;
    forall i | 0 <= i < |v| ensures DecodeDoubles(EncodeDoubles(v) + tail, |v|)[i] == v[i] {
      EncodedDoubleAt(v, tail, i);
      U64RoundTrip(v[i]);
    }
  }

  // ---------- the job ----------

  function SampleIndex(s: LegSpec, step: nat): u32 {
    ((s.offset + step) % 0x1_0000_0000) % Max(s.samples, 1)
  }

  function TrainLeg(h: LegHost, p: Params, s: LegSpec, n: nat): LegFit {
    if n == 0 then LegFit(p, 0)
    else h.step(TrainLeg(h, p, s, n - 1).params, s.leg, s.epoch, SampleIndex(s, n - 1), s.lrMilli)
  }

  function EvalIndices(s: LegSpec, n: nat): (e: seq<u32>)
    ensures |e| == n
  {
    seq(n, i requires 0 <= i < n => (s.offset + i) % 0x1_0000_0000)
  }

  function RunLeg(h: LegHost, weights: Bytes, input: Bytes): Option<Trained<LegReport>> {
    match ParseLegJob(input)
    case None => None
    case Some(s) =>
      match DecodeLegWeights(weights)
      case None => None
      case Some(p) =>
        var f := TrainLeg(h, p, s, s.steps);
        var blob := EncodeLegWeights(f.params);
        var score := h.score(f.params, s.leg, s.epoch, EvalIndices(s, Min(s.samples, 32)));
        Some(Trained(blob, h.hash(blob), LegReport(f.lossBits, score)))
  }

  /** `run_leg_train`. */
  method RunLegTrain(h: LegHost, weights: Bytes, input: Bytes) returns (r: Option<Trained<LegReport>>)
    ensures r == RunLeg(h, weights, input)
  {
    hide ParseLegJob, EncodeLegWeights;
    var parsed := ParseLegLoop(input);
    if parsed.None? {
      return None;
    }
    var s := parsed.value;
    var decoded := ReadLegWeights(weights);
    if decoded.None? {
      return None;
    }
    var params, loss: u64 := decoded.value, 0;
    for step := 0 to s.steps
      invariant LegFit(params, loss) == TrainLeg(h, decoded.value, s, step)
    {
      var idx := ((s.offset + step) % 0x1_0000_0000) % Max(s.samples, 1);
      var f := h.step(params, s.leg, s.epoch, idx, s.lrMilli);
      params, loss := f.params, f.lossBits;
    }
    var n := Min(s.samples, 32);
    var indices: seq<u32> := [];
    for i := 0 to n
      invariant indices == EvalIndices(s, i)
    {
      indices := indices + [(s.offset + i) % 0x1_0000_0000];
    }
    var score := h.score(params, s.leg, s.epoch, indices);
    var blob := WriteLegWeights(params);
    r := Some(Trained(blob, h.hash(blob), LegReport(loss, score)));
  }

  method ReadLegWeights(blob: Bytes) returns (p: Option<Params>)
    ensures p == DecodeLegWeights(blob)
  {
    hide LegMagic, GetU32, GetU64;
    if |blob| < LEG_BLOB_LEN || blob[..LEG_MAGIC_LEN] != LegMagic() {
      return None;
    }
    var o := LEG_MAGIC_LEN;
    var n := GetU32(blob[o..o + 4]);
    o := o + 4;
    if n != LEG_FLOATS || |blob| < o + n * 8 {
      return None;
    }
    var v: Doubles := [];
    for i := 0 to LEG_FLOATS
      invariant o == LEG_HEADER_LEN + 8 * i && |v| == i
      invariant v == DecodeDoubles(blob[LEG_HEADER_LEN..], i)
    {
      assert DoubleAt(blob[LEG_HEADER_LEN..], i) == blob[o..o + 8];
      v := v + [GetU64(blob[o..o + 8])];
      o := o + 8;
    }
    p := Some(v);
  }

  method WriteLegWeights(p: Params) returns (out: Bytes)
    ensures out == EncodeLegWeights(p)
  {
    hide LegMagic, PutU32, PutU64;
    out := LegMagic();
    out := out + PutU32(LEG_FLOATS);
    for i := 0 to |p|
      invariant out == LegHeader() + EncodeDoubles(p[..i])
    {
      out := out + PutU64(p[i]);
      assert p[..i + 1][..i] == p[..i];
    }
    assert p[..|p|] == p;
  }

  /** Whatever blob a job starts from, its output is a blob the next job can start from. */
  lemma RunLegOutput(h: LegHost, weights: Bytes, input: Bytes)
    requires RunLeg(h, weights, input).Some?
    ensures var t := RunLeg(h, weights, input).value;
      DecodeLegWeights(t.weights).Some? && |t.weights| == LEG_BLOB_LEN && t.digest == h.hash(t.weights)
  {
    hide ParseLegJob, DecodeLegWeights, EncodeLegWeights, TrainLeg;
    var s := ParseLegJob(input).value;
    var f := TrainLeg(h, DecodeLegWeights(weights).value, s, s.steps);
    LegWeightsRoundTrip(f.params, []);
    assert EncodeLegWeights(f.params) + [] == EncodeLegWeights(f.params);
  }
}
