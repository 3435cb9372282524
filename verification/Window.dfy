/**
 Which samples a job trains on and is scored on (crates/mesh-ai-v2/src/job.rs, `run_job`;
 cuda/brain_v2_train.cu): the records of its window in order, over and over, and up to 64 of them again
 at the end. A record is a label byte and 784 pixel bytes.
 */
module Window {
  import opened Machine
  import opened Text
  import opened Q16
  import opened Network
  import opened WeightCodec
  import opened Job
  import opened Training

  type Example = r: Bytes | |r| == 785 witness seq(785, _ => 0)

  /** Records lo, lo + 1, ..., lo + n - 1 of a dataset. */
  function Examples(blob: Bytes, lo: nat, n: nat): (w: seq<Example>)
    requires Readable(blob) && lo + n <= 4096
    ensures |w| == n
  {
    seq(n, i requires 0 <= i < n => blob[18 + 785 * (lo + i)..18 + 785 * (lo + i) + 785])
  }

  /** Byte p becomes the Q16 number nearest to p / 255. */
  function Pixel(p: byte): (q: i32)
    ensures -128 < 255 * q - 65536 * p < 128
  {
    (p * 65536 + 127) / 255
  }

  lemma PixelIsNearest(p: byte, q: int)
    ensures q == PixelToQ(p) <==> -128 < 255 * q - 65536 * p < 128
  {
    assert PixelToQ(p) == Pixel(p);
  }

  function Image(r: Example): (x: Vec)
    ensures |x| == 784
  {
    seq<i32>(784, i requires 0 <= i < 784 => Pixel(r[1 + i]))
  }

  /** One step after another over a list of records. */
  function Fold(m: Net, w: seq<Example>, lr: i32): Net {
    if w == [] then m
    else
      var last := w[|w| - 1];
      Step(Fold(m, w[..|w| - 1], lr), Image(last), last[0], lr)
  }

  /** The same list k times over. */
  function Passes(m: Net, w: seq<Example>, lr: i32, k: nat): Net {
    if k == 0 then m else Fold(Passes(m, w, lr, k - 1), w, lr)
  }

  /** The trainer reads record idx as its label and its image. */
  lemma SampleIsExample(blob: Bytes, lo: nat, n: nat, i: nat)
    requires Readable(blob) && lo + n <= 4096 && i < n
    ensures SampleLabel(blob, lo + i) == Examples(blob, lo, n)[i][0]
    ensures SamplePixels(blob, lo + i) == Image(Examples(blob, lo, n)[i])
  {
    hide PixelToQ, Pixel;
    var r := Examples(blob, lo, n)[i];
    forall t | 0 <= t < 784 ensures SamplePixels(blob, lo + i)[t] == Image(r)[t] {
      PixelIsNearest(r[1 + t], Pixel(r[1 + t]));
    }
  }

  // ---------- training ----------

  function WindowOf(blob: Bytes, s: Spec): (w: seq<Example>)
    requires Readable(blob) && Normal(s)
    ensures |w| == s.samples
  {
    Examples(blob, s.offset, s.samples)
  }

  lemma FoldOneMore(m: Net, w: seq<Example>, lr: i32, r: nat)
    requires r < |w|
    ensures Fold(m, w[..r + 1], lr) == Step(Fold(m, w[..r], lr), Image(w[r]), w[r][0], lr)
  {
    hide Step, Image;
    assert w[..r + 1][..r] == w[..r];
  }

  lemma TrainOneMore(m: Net, blob: Bytes, s: Spec, lr: i32, k: nat, r: nat)
    requires Readable(blob) && Normal(s) && r < s.samples
    ensures k * s.samples >= 0
    ensures var before, rec := TrainFor(m, blob, s, lr, k * s.samples + r).net, WindowOf(blob, s)[r];
      TrainFor(m, blob, s, lr, k * s.samples + r + 1)
      == Fit(Step(before, Image(rec), rec[0], lr), StepLoss(before, Image(rec), rec[0]))
  {
    hide Step, StepLoss, Readable, WindowOf, SamplePixels, SampleLabel, Image, StepIndex, Normal;
    IndexIs(s, k, r);
    WindowSample(blob, s, r);
  }

  /** Any number of steps: whole passes over the window's records, in order, then the rest of one. */
  lemma {:induction false} TrainingIsFold(m: Net, blob: Bytes, s: Spec, lr: i32, k: nat, r: nat)
    requires Readable(blob) && Normal(s) && r <= s.samples
    ensures k * s.samples >= 0
    ensures TrainFor(m, blob, s, lr, k * s.samples + r).net
         == Fold(Passes(m, WindowOf(blob, s), lr, k), WindowOf(blob, s)[..r], lr)
    decreases k, r
  {
    hide Step, StepLoss, Readable, WindowOf, Image, TrainFor, Fold, Normal;
    var w := WindowOf(blob, s);
    ProductUp(k, s.samples);
    if r > 0 {
      TrainingIsFold(m, blob, s, lr, k, r - 1);
      TrainOneMore(m, blob, s, lr, k, r - 1);
      FoldOneMore(Passes(m, w, lr, k), w, lr, r - 1);
    } else {
      FoldOfNone(Passes(m, w, lr, k), w[..0], lr);
      if k > 0 {
        TrainingIsFold(m, blob, s, lr, k - 1, s.samples);
        assert w[..s.samples] == w;
      } else {
        NoSteps(m, blob, s, lr);
      }
    }
  }

  lemma FoldOfNone(m: Net, w: seq<Example>, lr: i32)
    requires w == []
    ensures Fold(m, w, lr) == m
  {
  }

  lemma NoSteps(m: Net, blob: Bytes, s: Spec, lr: i32)
    requires Readable(blob) && Normal(s)
    ensures TrainFor(m, blob, s, lr, 0).net == m
  {
  }

  lemma ProductUp(k: nat, n: nat)
    ensures k * n >= 0 && (k > 0 ==> k * n == (k - 1) * n + n)
  {
  }

  lemma IndexIs(s: Spec, k: nat, r: nat)
    requires Normal(s) && r < s.samples
    ensures k * s.samples >= 0 && StepIndex(s, k * s.samples + r) == s.offset + r
  {
    DivModUnique(k, r, s.samples);
  }

  lemma WindowSample(blob: Bytes, s: Spec, r: nat)
    requires Readable(blob) && Normal(s) && r < s.samples
    ensures SampleLabel(blob, s.offset + r) == WindowOf(blob, s)[r][0]
    ensures SamplePixels(blob, s.offset + r) == Image(WindowOf(blob, s)[r])
  {
    SampleIsExample(blob, s.offset, s.samples, r);
  }

  /** Up to a window's worth of steps is one pass over its first records. */
  lemma FirstPassIsFold(m: Net, blob: Bytes, s: Spec, lr: i32, n: nat)
    requires Readable(blob) && Normal(s) && n <= s.samples
    ensures TrainFor(m, blob, s, lr, n).net == Fold(m, Examples(blob, s.offset, n), lr)
  {
    hide TrainFor, Fold, Readable;
    TrainingIsFold(m, blob, s, lr, 0, n);
    assert WindowOf(blob, s)[..n] == Examples(blob, s.offset, n);
  }

  /** The loss reported is that of the last step, on its record, by the weights before it. */
  lemma LastLoss(m: Net, blob: Bytes, s: Spec, lr: i32, k: nat, r: nat)
    requires Readable(blob) && Normal(s) && r < s.samples
    ensures k * s.samples >= 0
    ensures var w := WindowOf(blob, s);
      TrainFor(m, blob, s, lr, k * s.samples + r + 1).loss
      == StepLoss(Fold(Passes(m, w, lr, k), w[..r], lr), Image(w[r]), w[r][0])
  {
    hide Step, StepLoss, Readable, WindowOf, Image, TrainFor, Fold, Normal;
    TrainingIsFold(m, blob, s, lr, k, r);
    TrainOneMore(m, blob, s, lr, k, r);
  }

  /** Among any `samples` steps in a row each record of the window has its turn exactly once. */
  lemma EachOnce(s: Spec, first: nat, idx: nat)
    requires Normal(s) && s.offset <= idx < s.offset + s.samples
    ensures exists t :: HasTurn(s, first, idx, t)
    ensures forall t, u :: HasTurn(s, first, idx, t) && HasTurn(s, first, idx, u) ==> t == u
  {
    hide StepIndex, HasTurn, Normal;
    var t := TurnOf(s, first, idx);
    forall u | HasTurn(s, first, idx, u) ensures u == t {
      SameTurn(s, first, idx, u, t);
    }
  }

  ghost predicate HasTurn(s: Spec, first: nat, idx: nat, t: nat)
    requires Normal(s)
  {
    first <= t < first + s.samples && StepIndex(s, t) == idx
  }

  lemma TurnOf(s: Spec, first: nat, idx: nat) returns (t: nat)
    requires Normal(s) && s.offset <= idx < s.offset + s.samples
    ensures HasTurn(s, first, idx, t)
  {
    t := NextCongruent(first, s.samples, idx - s.offset);
  }

  lemma SameTurn(s: Spec, first: nat, idx: nat, u: nat, t: nat)
    requires Normal(s) && HasTurn(s, first, idx, u) && HasTurn(s, first, idx, t)
    ensures u == t
  {
    OneCongruent(u, t, s.samples);
  }

  /** What a finished job hands in: the blob of the network folded over its window. */
  lemma JobIsFold(h: Host, weights: Bytes, input: Bytes)
    requires RunJob(h, weights, input).Ok?
    ensures ParseJob(input).Ok? && Normal(ParseJob(input).value) && Readable(h.dataset)
    ensures DecodeWeights(weights).Some?
    ensures var s, m := ParseJob(input).value, DecodeWeights(weights).value;
      DecodeWeights(RunJob(h, weights, input).value.weights) == Some(WindowNet(h.dataset, s, m))
  {
    hide ParseJob, DecodeWeights, EncodeWeights, TrainFor, WindowNet, Accuracy, QFromMilli, Normal;
    AcceptedIsNormal(input);
    var s, m := ParseJob(input).value, DecodeWeights(weights).value;
    WindowNetIs(h.dataset, s, m);
    var net := WindowNet(h.dataset, s, m);
    WeightsRoundTrip(net, []);
    assert EncodeWeights(net) + [] == EncodeWeights(net);
  }

  function FullPasses(s: Spec): nat
    requires Normal(s)
  {
    QuotientNonNegative(s.steps, s.samples);
    s.steps / s.samples
  }

  lemma QuotientNonNegative(n: nat, d: nat)
    requires d > 0
    ensures n / d >= 0
  {
  }

  function LeftOver(s: Spec): (r: nat)
    requires Normal(s)
    ensures r < s.samples
  {
    s.steps % s.samples
  }

  /** A rate given in thousandths, in Q16. */
  function Rate(milli: nat): i32 requires milli <= 500 { (milli * 65536 + 500) / 1000 }

  /** The network of a job: as many whole passes as its steps hold, then the rest, at its rate. */
  function WindowNet(blob: Bytes, s: Spec, m: Net): Net
    requires Readable(blob) && Normal(s)
  {
    var w := WindowOf(blob, s);
    Fold(Passes(m, w, Rate(s.lrMilli), FullPasses(s)), w[..LeftOver(s)], Rate(s.lrMilli))
  }

  lemma WindowNetIs(blob: Bytes, s: Spec, m: Net)
    requires Readable(blob) && Normal(s)
    ensures TrainFor(m, blob, s, QFromMilli(s.lrMilli), s.steps).net == WindowNet(blob, s, m)
  {
    hide Fold, Passes, TrainFor, WindowOf, QFromMilli, Readable, FullPasses, LeftOver, Rate;
    RateIs(s);
    StepsSplit(s);
    hide Normal;
    TrainingIsFold(m, blob, s, Rate(s.lrMilli), FullPasses(s), LeftOver(s));
  }

  lemma RateIs(s: Spec)
    requires Normal(s)
    ensures QFromMilli(s.lrMilli) == Rate(s.lrMilli)
  {
    JobRateIsSmall(s.lrMilli);
  }

  lemma StepsSplit(s: Spec)
    requires Normal(s)
    ensures s.steps == FullPasses(s) * s.samples + LeftOver(s)
  {
  }

  // ---------- evaluation ----------

  /** The network's answer: the first class none exceeds. */
  ghost predicate Answers(m: Net, x: Vec, c: nat)
    requires |x| == 784
  {
    var out := Forward(m, x).out;
    && c < 10
    && (forall d :: 0 <= d < 10 ==> out[d] <= out[c])
    && (forall d :: 0 <= d < c ==> out[d] < out[c])
  }

  lemma PredictAnswers(m: Net, x: Vec, c: nat)
    requires |x| == 784
    ensures Answers(m, x, c) <==> c == Predict(m, x)
  {
    hide Forward, ArgMax;
    var out, best := Forward(m, x).out, Predict(m, x);
    ArgMaxIsFirstMaximum(out, OUT);
    if Answers(m, x, c) {
      assert out[c] <= out[best] && out[best] <= out[c];
    }
  }

  /** The records of a list, by number, that the network gets right. */
  ghost function Right(m: Net, w: seq<Example>): set<nat> {
    set i | 0 <= i < |w| && Answers(m, Image(w[i]), w[i][0])
  }

  lemma RightGrows(m: Net, w: seq<Example>)
    requires w != []
    ensures var n := |w| - 1;
      |Right(m, w)| == |Right(m, w[..n])| + if Answers(m, Image(w[n]), w[n][0]) then 1 else 0
  {
    hide Answers, Image;
    var n := |w| - 1;
    if Answers(m, Image(w[n]), w[n][0]) {
      assert Right(m, w) == Right(m, w[..n]) + {n};
    } else {
      assert Right(m, w) == Right(m, w[..n]);
    }
  }

  lemma {:induction false} CorrectCounts(m: Net, blob: Bytes, lo: nat, n: nat)
    requires Readable(blob) && lo + n <= 4096
    ensures Correct(m, blob, lo, n) == |Right(m, Examples(blob, lo, n))|
  {
    hide Predict, Answers, Image, SamplePixels, SampleLabel, Right;
    var w := Examples(blob, lo, n);
    if n == 0 {
      NoneRight(m, w);
    } else {
      CorrectCounts(m, blob, lo, n - 1);
      SampleIsExample(blob, lo, n, n - 1);
      PredictAnswers(m, Image(w[n - 1]), w[n - 1][0]);
      RightGrows(m, w);
      assert w[..n - 1] == Examples(blob, lo, n - 1);
    }
  }

  lemma NoneRight(m: Net, w: seq<Example>)
    requires w == []
    ensures |Right(m, w)| == 0
  {
    assert Right(m, w) == {};
  }

  /** The accuracy is the share of right answers among the first 64 records of the window, or all if fewer. */
  lemma AccuracyCounts(m: Net, blob: Bytes, s: Spec)
    requires Readable(blob) && Normal(s)
    ensures var n := if s.samples < 64 then s.samples else 64;
      Accuracy(m, blob, s) == |Right(m, Examples(blob, s.offset, n))| * 65536 / n
  {
    hide Readable, Right, Correct, Examples;
    var n := EvalCount(s);
    CorrectCounts(m, blob, s.offset, n);
    ShareIs(Correct(m, blob, s.offset, n), n);
  }

  lemma ShareIs(c: nat, n: nat)
    requires 0 < n && c <= n
    ensures Share(c, n) == c * 65536 / n
  {
    ShareFits(c, n);
  }

  lemma ShareFits(c: nat, n: nat)
    requires 0 < n && c <= n
    ensures 0 <= c * 65536 / n <= 65536
  {
    if c < n {
      QuotientBelow(c * 65536, n, 65536);
    } else {
      DivModUnique(65536, 0, n);
    }
  }

  /** A job fails for its text, then for the dataset, then for the weights, and for nothing else. */
  lemma JobFailsIff(h: Host, weights: Bytes, input: Bytes)
    ensures RunJob(h, weights, input) == Err(BadInput) <==> ParseJob(input).Err?
    ensures RunJob(h, weights, input) == Err(BadDataset) <==> ParseJob(input).Ok? && !ValidDataset(h.dataset)
    ensures RunJob(h, weights, input) == Err(BadWeights)
      <==> ParseJob(input).Ok? && ValidDataset(h.dataset) && DecodeWeights(weights).None?
  {
    hide Collect, ValidUtf8, SplitOn, ValidDataset, DecodeWeights, Finished, Normalise, Prefix;
  }

  /** What a finished job reports: the last step's loss, the accuracy of the network it hands in, the blob's hash. */
  lemma JobReport(h: Host, weights: Bytes, input: Bytes, k: nat, r: nat)
    requires RunJob(h, weights, input).Ok?
    requires ParseJob(input).Ok? && Normal(ParseJob(input).value) && Readable(h.dataset)
    requires DecodeWeights(weights).Some?
    requires k * ParseJob(input).value.samples >= 0 && r < ParseJob(input).value.samples
    requires ParseJob(input).value.steps == k * ParseJob(input).value.samples + r + 1
    ensures var s, m, out := ParseJob(input).value, DecodeWeights(weights).value, RunJob(h, weights, input).value;
      var w, n := WindowOf(h.dataset, s), if s.samples < 64 then s.samples else 64;
      && out.loss == StepLoss(Fold(Passes(m, w, Rate(s.lrMilli), k), w[..r], Rate(s.lrMilli)), Image(w[r]), w[r][0])
      && n > 0 && s.offset + n <= 4096
      && out.accuracy == |Right(WindowNet(h.dataset, s, m), Examples(h.dataset, s.offset, n))| * 65536 / n
      && out.digest == h.hash(out.weights)
  {
    hide ParseJob, DecodeWeights, EncodeWeights, TrainFor, WindowNet, Accuracy, QFromMilli, Fold, Passes, WindowOf;
    hide Readable, Right, Rate;
    var s, m := ParseJob(input).value, DecodeWeights(weights).value;
    RateIs(s);
    WindowNetIs(h.dataset, s, m);
    LastLoss(m, h.dataset, s, Rate(s.lrMilli), k, r);
    AccuracyCounts(WindowNet(h.dataset, s, m), h.dataset, s);
  }

  // ---------- the dataset ----------

  /** A dataset is valid just when it has the one right length and starts with these eighteen bytes. */
  lemma ValidDatasetIff(blob: Bytes)
    ensures ValidDataset(blob) <==>
      |blob| == 3215378
      && blob[..18] == [77, 69, 83, 72, 77, 78, 73, 83, 84, 49, 0, 16, 0, 0, 16, 3, 0, 0]
  {
    if |blob| == 3215378 {
      DatasetTag();
      CountField(blob[10..14], 4096);
      CountField(blob[14..18], 784);
      assert PutU32(4096) == [0, 16, 0, 0] && PutU32(784) == [16, 3, 0, 0];
      assert blob[..18] == blob[..10] + blob[10..14] + blob[14..18];
      HeaderParts(blob[..10], blob[10..14], blob[14..18]);
    }
  }

  lemma DatasetTag()
    ensures Ascii("MESHMNIST1") == [77, 69, 83, 72, 77, 78, 73, 83, 84, 49]
  {
  }

  lemma CountField(field: Bytes, n: u32)
    requires |field| == 4
    ensures GetU32(field) == n <==> field == PutU32(n)
  {
    hide GetU32, PutU32;
    U32Reencodes(field);
    U32RoundTrip(n);
  }

  lemma HeaderParts(a: Bytes, b: Bytes, c: Bytes)
    requires |a| == 10 && |b| == |c| == 4
    ensures a + b + c == [77, 69, 83, 72, 77, 78, 73, 83, 84, 49, 0, 16, 0, 0, 16, 3, 0, 0]
      <==> a == [77, 69, 83, 72, 77, 78, 73, 83, 84, 49] && b == [0, 16, 0, 0] && c == [16, 3, 0, 0]
  {
    var all := a + b + c;
    assert all[..10] == a && all[10..14] == b && all[14..18] == c;
  }
}
