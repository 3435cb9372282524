/**
 Running a job (crates/mesh-ai-v2/src/job.rs): decode the weights, train on a window of the
 dataset, evaluate, encode. `RunJob` is the mathematical result; the CPU and the CUDA runners
 are both proved to return it.
 */
module Training {
  import opened Machine
  import opened Text
  import opened Q16
  import opened Network
  import opened WeightCodec
  import opened Job
  import TrainCpu
  import TrainCuda

  /** What a build of the crate fixes: the hash function and the embedded dataset. */
  datatype Host = Host(hash: Bytes -> Digest, dataset: Bytes)

  datatype Result = Result(loss: i32, accuracy: i32, digest: Digest, weights: Bytes)

  const DATASET_HEADER: nat := 18
  const RECORD: nat := 785
  const FULL_DATASET: nat := DATASET_HEADER + SAMPLE_COUNT * RECORD

  // ---------- dataset ----------

  predicate ValidDataset(blob: Bytes): (ok: bool)
    ensures ok ==> Readable(blob)
  {
    && |blob| >= DATASET_HEADER
    && blob[..10] == Ascii("MESHMNIST1")
    && GetU32(blob[10..14]) == SAMPLE_COUNT
    && GetU32(blob[14..18]) == INPUT
    && |blob| == DATASET_HEADER + SAMPLE_COUNT * RECORD
  }

  /** Long enough for every sample; all the trainers and the kernel look at. */
  predicate Readable(blob: Bytes) { |blob| >= FULL_DATASET }

  function SampleLabel(blob: Bytes, idx: nat): byte
    requires Readable(blob) && idx < SAMPLE_COUNT
  {
    blob[DATASET_HEADER + idx * RECORD]
  }

  function PixelToQ(p: byte): i32 { Wrap32((p * 0x1_0000 + 127) / 255) }

  function SamplePixels(blob: Bytes, idx: nat): (x: Vec)
    requires Readable(blob) && idx < SAMPLE_COUNT
    ensures |x| == INPUT
  {
    seq<i32>(INPUT, i requires 0 <= i < INPUT => PixelToQ(blob[DATASET_HEADER + idx * RECORD + 1 + i]))
  }

  method LoadSample(blob: Bytes, idx: nat) returns (y: byte, x: array<i32>)
    requires Readable(blob) && idx < SAMPLE_COUNT
    ensures y == SampleLabel(blob, idx)
    ensures fresh(x) && x[..] == SamplePixels(blob, idx)
  {
    var base := DATASET_HEADER + idx * RECORD;
    y := blob[base];
    x := new i32[INPUT](_ => 0);
    for i := 0 to INPUT
      invariant forall l :: 0 <= l < i ==> x[l] == SamplePixels(blob, idx)[l]
    {
      x[i] := PixelToQ(blob[base + 1 + i]);
    }
  }

  // ---------- training ----------

  datatype Fit = Fit(net: Net, loss: i32)

  /** The sample a step trains on: the window, over and over. */
  function StepIndex(s: Spec, step: nat): (idx: nat)
    requires Normal(s)
    ensures s.offset <= idx < SAMPLE_COUNT
  {
    s.offset + step % s.samples
  }

  function TrainFor(m: Net, blob: Bytes, s: Spec, lr: i32, n: nat): Fit
    requires Readable(blob) && Normal(s)
  {
    if n == 0 then Fit(m, 0)
    else
      var before := TrainFor(m, blob, s, lr, n - 1).net;
      var idx := StepIndex(s, n - 1);
      var x, y := SamplePixels(blob, idx), SampleLabel(blob, idx);
      Fit(Step(before, x, y, lr), StepLoss(before, x, y))
  }

  // ---------- evaluation ----------

  /** The first of the first k outputs that no other exceeds. */
  function ArgMax(v: Vec, k: nat): (best: nat)
    requires k <= |v|
    ensures best <= k && (k > 0 ==> best < k)
  {
    if k <= 1 then 0
    else
      var best := ArgMax(v, k - 1);
      if v[k - 1] > v[best] then k - 1 else best
  }

  lemma {:induction false} ArgMaxIsFirstMaximum(v: Vec, k: nat)
    requires 0 < k <= |v|
    ensures forall c :: 0 <= c < k ==> v[c] <= v[ArgMax(v, k)]
    ensures forall c :: 0 <= c < ArgMax(v, k) ==> v[c] < v[ArgMax(v, k)]
  {
    if k > 1 {
      ArgMaxIsFirstMaximum(v, k - 1);
    }
  }

  function Predict(m: Net, x: Vec): nat
    requires |x| == INPUT
  {
    ArgMax(Forward(m, x).out, OUT)
  }

  function Correct(m: Net, blob: Bytes, offset: nat, n: nat): (c: nat)
    requires Readable(blob) && offset + n <= SAMPLE_COUNT
    ensures c <= n
  {
    if n == 0 then 0
    else
      var idx := offset + n - 1;
      Correct(m, blob, offset, n - 1)
      + if Predict(m, SamplePixels(blob, idx)) == SampleLabel(blob, idx) then 1 else 0
  }

  function EvalCount(s: Spec): nat { Min(s.samples, 64) }

  /** A fraction in Q16, rounded down. */
  function Share(c: nat, n: nat): i32
    requires n > 0
  {
    Wrap32(c * 0x1_0000 / n)
  }

  /** Accuracy is between nothing and one, and is one just when every sample was right. */
  lemma ShareBounds(c: nat, n: nat)
    requires 0 < n <= 64 && c <= n
    ensures 0 <= Share(c, n) <= ONE
    ensures Share(c, n) == ONE <==> c == n
  {
    if c == n {
      DivModUnique(0x1_0000, 0, n);
    } else {
      QuotientBelow(c * 0x1_0000, n, 0x1_0000);
    }
  }

  lemma QuotientBelow(p: nat, n: nat, cap: nat)
    requires n > 0 && p < cap * n
    ensures 0 <= p / n < cap
  {
    var q, r := p / n, p % n;
    assert q * n + r == p;
    FactorBelow(q, n, cap);
  }

  lemma FactorBelow(q: int, n: nat, cap: int)
    requires q * n < cap * n
    ensures q < cap
  {
    assert (q - cap) * n == q * n - cap * n;
  }

  function Accuracy(m: Net, blob: Bytes, s: Spec): i32
    requires Readable(blob) && Normal(s)
  {
    Share(Correct(m, blob, s.offset, EvalCount(s)), EvalCount(s))
  }

  /** The strict-greater scan that starts from the smallest value finds the first maximum. */
  method BestClass(out: array<i32>) returns (best: nat)
    requires out.Length == OUT
    ensures best == ArgMax(out[..], OUT)
  {
    best := 0;
    var bestValue: i32 := -0x8000_0000;
    for c := 0 to OUT
      invariant best == ArgMax(out[..], c)
      invariant c == 0 ==> bestValue == -0x8000_0000
      invariant c > 0 ==> bestValue == out[best]
    {
      if out[c] > bestValue {
        bestValue := out[c];
        best := c;
      }
    }
  }

  // ---------- the job ----------

  function RunJob(h: Host, weights: Bytes, input: Bytes): Outcome<Result> {
    match ParseJob(input)
    case Err(e) => Err(e)
    case Ok(s) =>
      if !ValidDataset(h.dataset) then Err(BadDataset)
      else
        match DecodeWeights(weights)
        case None => Err(BadWeights)
        case Some(m) =>
          AcceptedIsNormal(input);
          Ok(Finished(h, s, m))
  }

  function Finished(h: Host, s: Spec, m: Net): (r: Result)
    requires Readable(h.dataset) && Normal(s)
    ensures |r.weights| == BLOB_LEN && r.digest == h.hash(r.weights)
  {
    var t := TrainFor(m, h.dataset, s, QFromMilli(s.lrMilli), s.steps);
    var blob := EncodeWeights(t.net);
    Result(t.loss, Accuracy(t.net, h.dataset, s), h.hash(blob), blob)
  }

  lemma NormalWindow(s: Spec)
    requires Normal(s)
    ensures 0 < EvalCount(s) && s.offset + EvalCount(s) <= SAMPLE_COUNT
  {
  }

  method TrainOnCpu(model: TrainCpu.Mlp, blob: Bytes, s: Spec, lr: i32) returns (loss: i32)
    requires model.Valid() && Readable(blob) && Normal(s)
    modifies model.Buffers()
    ensures model.Valid() && model.Buffers() == old(model.Buffers())
    ensures Fit(model.Contents(), loss) == TrainFor(old(model.Contents()), blob, s, lr, s.steps)
  {
    hide Readable, Step, StepLoss, SamplePixels, SampleLabel;
    ghost var m0 := model.Contents();
    loss := 0;
    for step := 0 to s.steps
      invariant model.Valid() && model.Buffers() == old(model.Buffers())
      invariant Fit(model.Contents(), loss) == TrainFor(m0, blob, s, lr, step)
    {
      var idx := s.offset + step % s.samples;
      assert idx == StepIndex(s, step);
      var y, x := LoadSample(blob, idx);
      loss := model.TrainStep(x, y, lr);
    }
  }

  method ClassifyOnCpu(model: TrainCpu.Mlp, x: array<i32>) returns (best: nat)
    requires model.Valid() && x.Length == INPUT
    ensures best == Predict(model.Contents(), x[..])
  {
    hide Forward;
    var pre1, act1, pre2, act2, out := model.RunForward(x);
    best := BestClass(out);
  }

  method EvaluateOnCpu(model: TrainCpu.Mlp, blob: Bytes, s: Spec) returns (acc: i32)
    requires model.Valid() && Readable(blob) && Normal(s)
    ensures acc == Accuracy(model.Contents(), blob, s)
  {
    hide Readable, Predict, SamplePixels, SampleLabel, Share;
    NormalWindow(s);
    ghost var m := model.Contents();
    var correct, n := 0, Min(s.samples, 64);
    for i := 0 to n
      invariant model.Contents() == m
      invariant correct == Correct(m, blob, s.offset, i)
    {
      var y, x := LoadSample(blob, s.offset + i);
      var best := ClassifyOnCpu(model, x);
      if best == y {
        correct := correct + 1;
      }
    }
    acc := Share(correct, n);
  }

  /** The verify path, `run_job`. */
  method RunJobCpu(h: Host, weights: Bytes, input: Bytes) returns (r: Outcome<Result>)
    ensures r == RunJob(h, weights, input)
  {
    hide ParseJob, ValidDataset, DecodeWeights, EncodeWeights, Accuracy, Normal, QFromMilli;
    var parsed := Parse(input);
    if parsed.Err? {
      return Err(parsed.error);
    }
    var s := parsed.value;
    AcceptedIsNormal(input);
    if !ValidDataset(h.dataset) {
      return Err(BadDataset);
    }
    var model := TrainCpu.Mlp.FromWeights(weights);
    if model == null {
      return Err(BadWeights);
    }
    var loss := TrainOnCpu(model, h.dataset, s, QFromMilli(s.lrMilli));
    var acc := EvaluateOnCpu(model, h.dataset, s);
    var blob := model.ToWeights();
    r := Ok(Result(loss, acc, h.hash(blob), blob));
  }

  // ---------- the CUDA worker ----------

  method TrainOnCuda(buf: array<i32>, blob: Bytes, s: Spec, lr: i32) returns (loss: i32)
    requires buf.Length == N_WEIGHTS && Readable(blob) && Normal(s)
    modifies buf
    ensures Fit(Split(buf[..]), loss) == TrainFor(Split(old(buf[..])), blob, s, lr, s.steps)
  {
    hide Readable, Step, StepLoss, SamplePixels, SampleLabel, Split;
    ghost var m0 := Split(buf[..]);
    loss := 0;
    for step := 0 to s.steps
      invariant Fit(Split(buf[..]), loss) == TrainFor(m0, blob, s, lr, step)
    {
      var idx := s.offset + step % s.samples;
      assert idx == StepIndex(s, step);
      var y, x := LoadSample(blob, idx);
      loss := TrainCuda.TrainStep(buf, x, y, lr);
    }
  }

  method ClassifyOnCuda(buf: array<i32>, x: array<i32>) returns (best: nat)
    requires buf.Length == N_WEIGHTS && x.Length == INPUT
    ensures best == Predict(Split(buf[..]), x[..])
  {
    hide Forward, Split;
    var pre1, act1, pre2, act2, out := TrainCuda.RunForward(buf, x);
    best := BestClass(out);
  }

  method EvaluateOnCuda(buf: array<i32>, blob: Bytes, s: Spec) returns (acc: i32)
    requires buf.Length == N_WEIGHTS && Readable(blob) && Normal(s)
    ensures acc == Accuracy(Split(buf[..]), blob, s)
  {
    hide Readable, Predict, SamplePixels, SampleLabel, Split, Share;
    NormalWindow(s);
    ghost var m := Split(buf[..]);
    var correct, n := 0, Min(s.samples, 64);
    for i := 0 to n
      invariant Split(buf[..]) == m
      invariant correct == Correct(m, blob, s.offset, i)
    {
      var y, x := LoadSample(blob, s.offset + i);
      var best := ClassifyOnCuda(buf, x);
      if best == y {
        correct := correct + 1;
      }
    }
    acc := Share(correct, n);
  }

  /** What the kernel's launcher accepts: `mnist.len() as u32` must reach the full size. Nothing else is looked at. */
  predicate CudaTakes(blob: Bytes) { |blob| % 0x1_0000_0000 >= FULL_DATASET }

  lemma TakenIsReadable(blob: Bytes)
    requires CudaTakes(blob)
    ensures Readable(blob)
  {
  }

  /**
   `run_job_cuda`: the weights are looked at before the dataset, whose header is not looked at at all;
   where the kernel refuses or fails, the CPU runs the job.
   */
  function RunJobOnDevice(h: Host, weights: Bytes, input: Bytes, fails: bool): Outcome<Result> {
    match ParseJob(input)
    case Err(e) => Err(e)
    case Ok(s) =>
      match DecodeWeights(weights)
      case None => Err(BadWeights)
      case Some(m) =>
        if fails || !CudaTakes(h.dataset) then RunJob(h, weights, input)
        else
          AcceptedIsNormal(input);
          TakenIsReadable(h.dataset);
          Ok(Finished(h, s, m))
  }

  /**
   The two paths agree, bit for bit, just when the job does not parse, or the dataset is valid, or the
   weights are good and the kernel leaves the job to the CPU.
   */
  lemma CudaMatchesIff(h: Host, weights: Bytes, input: Bytes, fails: bool)
    ensures RunJobOnDevice(h, weights, input, fails) == RunJob(h, weights, input) <==>
      (ParseJob(input).Err? || ValidDataset(h.dataset)
       || (DecodeWeights(weights).Some? && (fails || |h.dataset| % 0x1_0000_0000 < 3215378)))
  {
    hide ParseJob, DecodeWeights, Finished, Normal;
  }

  /** A full-length dataset with a wrong header: the device trains on it, the CPU refuses it. */
  lemma CudaTakesWrongHeader(hash: Bytes -> Digest, m: Net)
    ensures var h := Host(hash, seq(FULL_DATASET, _ => 0));
      var weights, input := EncodeWeights(m), EncodeJob(0, 1, 1, 16, 0);
      && RunJob(h, weights, input) == Err(BadDataset)
      && RunJobOnDevice(h, weights, input, false).Ok?
  {
    hide ParseJob, EncodeJob, DecodeWeights, EncodeWeights, Finished, Normalise, GetU32;
    var dataset: Bytes := seq(FULL_DATASET, _ => 0);
    JobRoundTrip(0, 1, 1, 16, 0);
    WeightsRoundTrip(m, []);
    assert EncodeWeights(m) + [] == EncodeWeights(m);
    assert dataset[..10][0] == 0 && Ascii("MESHMNIST1")[0] == 77;
  }

  method RunJobCuda(h: Host, weights: Bytes, input: Bytes, fails: bool) returns (r: Outcome<Result>)
    ensures r == RunJobOnDevice(h, weights, input, fails)
  {
    hide ParseJob, ValidDataset, EncodeWords, DecodeWords, Accuracy, Normal, QFromMilli, GetU32, Magic, Header;
    hide RunJob, Readable;
    var parsed := Parse(input);
    if parsed.Err? {
      return Err(parsed.error);
    }
    var s := parsed.value;
    AcceptedIsNormal(input);
    if |weights| < BLOB_LEN || weights[..MAGIC_LEN] != Magic() {
      return Err(BadWeights);
    }
    var n := GetU32(weights[MAGIC_LEN..HEADER_LEN]);
    if n != N_WEIGHTS || |weights| < HEADER_LEN + N_WEIGHTS * 4 {
      return Err(BadWeights);
    }
    var buf, end := TrainCpu.ReadWords(weights, HEADER_LEN, N_WEIGHTS);
    var len: u32 := |h.dataset| % 0x1_0000_0000;
    if len < DATASET_HEADER + 4096 * (1 + INPUT) || fails {
      r := RunJobCpu(h, weights, input);
      return;
    }
    TakenIsReadable(h.dataset);
    var loss := TrainOnCuda(buf, h.dataset, s, QFromMilli(s.lrMilli));
    var acc := EvaluateOnCuda(buf, h.dataset, s);
    var blob := TrainCpu.AppendWords(Header(), buf);
    SplitJoin(Split(buf[..]), buf[..]);
    r := Ok(Result(loss, acc, h.hash(blob), blob));
  }
}
