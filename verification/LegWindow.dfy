/**
 Which samples a guardian's job trains on and is scored on (crates/mesh-ai/src/legs.rs, `run_leg_train`),
 as lists; one training step and the score are parameters.
 */
module LegWindow {
  import opened Machine
  import Text
  import opened LegJob
  import opened LegTrain
  import opened Protocol

  /** One step after another over a list of sample numbers, from parameters and a loss. */
  function Fold(h: LegHost, from: LegFit, leg: LegId, epoch: u64, lrMilli: u32, w: seq<u32>): LegFit {
    if w == [] then from
    else h.step(Fold(h, from, leg, epoch, lrMilli, w[..|w| - 1]).params, leg, epoch, w[|w| - 1], lrMilli)
  }

  /** The first n numbers from the offset on, in 32 bits, reduced modulo the window. */
  function Order(s: LegSpec, n: nat): (w: seq<u32>)
    requires s.samples > 0
    ensures |w| == n
  {
    seq(n, i requires 0 <= i < n => (s.offset + i) % 0x1_0000_0000 % s.samples)
  }

  lemma {:induction false} TrainingIsFold(h: LegHost, p: Params, s: LegSpec, n: nat)
    requires s.samples > 0
    ensures TrainLeg(h, p, s, n) == Fold(h, LegFit(p, 0), s.leg, s.epoch, s.lrMilli, Order(s, n))
  {
    if n > 0 {
      TrainingIsFold(h, p, s, n - 1);
      assert Order(s, n)[..n - 1] == Order(s, n - 1);
    }
  }

  /** While the 32-bit counter does not wrap, any `samples` steps in a row see each sample exactly once. */
  lemma EachOnce(s: LegSpec, first: nat, idx: nat)
    requires 0 < s.samples && idx < s.samples && s.offset + first + s.samples <= 0x1_0000_0000
    ensures exists t :: HasTurn(s, first, idx, t)
    ensures forall t, u :: HasTurn(s, first, idx, t) && HasTurn(s, first, idx, u) ==> t == u
  {
    hide HasTurn;
    var t := TurnOf(s, first, idx);
    forall u | HasTurn(s, first, idx, u) ensures u == t {
      SameTurn(s, first, idx, u, t);
    }
  }

  ghost predicate HasTurn(s: LegSpec, first: nat, idx: nat, t: nat)
    requires 0 < s.samples
  {
    first <= t < first + s.samples && SampleIndex(s, t) == idx
  }

  lemma TurnOf(s: LegSpec, first: nat, idx: nat) returns (t: nat)
    requires 0 < s.samples && idx < s.samples && s.offset + first + s.samples <= 0x1_0000_0000
    ensures HasTurn(s, first, idx, t)
  {
    hide SampleIndex;
    var y := NextCongruent(s.offset + first, s.samples, idx);
    t := y - s.offset;
    PlainIndex(s, t);
  }

  lemma SameTurn(s: LegSpec, first: nat, idx: nat, u: nat, t: nat)
    requires 0 < s.samples && s.offset + first + s.samples <= 0x1_0000_0000
    requires HasTurn(s, first, idx, u) && HasTurn(s, first, idx, t)
    ensures u == t
  {
    hide SampleIndex;
    PlainIndex(s, u);
    PlainIndex(s, t);
    OneCongruent(s.offset + u, s.offset + t, s.samples);
  }

  lemma PlainIndex(s: LegSpec, t: nat)
    requires 0 < s.samples && s.offset + t < 0x1_0000_0000
    ensures SampleIndex(s, t) == (s.offset + t) % s.samples
  {
  }

  /**
   What a guardian's job hands in and reports: the parameters folded over its samples in order, the last
   step's loss, and the score on up to 32 samples from the offset on.
   */
  lemma LegJobIsFold(h: LegHost, weights: Bytes, input: Bytes)
    requires RunLeg(h, weights, input).Some?
    ensures ParseLegJob(input).Some? && DecodeLegWeights(weights).Some? && ParseLegJob(input).value.samples > 0
    ensures var s, t := ParseLegJob(input).value, RunLeg(h, weights, input).value;
      var f := Fold(h, LegFit(DecodeLegWeights(weights).value, 0), s.leg, s.epoch, s.lrMilli, Order(s, s.steps));
      var scored := seq<u32>(if s.samples < 32 then s.samples else 32, i => (s.offset + i) % 0x1_0000_0000);
      && DecodeLegWeights(t.weights) == Some(f.params) && t.digest == h.hash(t.weights)
      && t.report == LegReport(f.lossBits, h.score(f.params, s.leg, s.epoch, scored))
  {
    hide EncodeLegWeights, DecodeLegWeights, TrainLeg, Fold, Order;
    var s := ParseLegJob(input).value;
    SomeSamples(input);
    hide ParseLegJob;
    var p := DecodeLegWeights(weights).value;
    TrainingIsFold(h, p, s, s.steps);
    var f := TrainLeg(h, p, s, s.steps);
    LegWeightsRoundTrip(f.params, []);
    assert EncodeLegWeights(f.params) + [] == EncodeLegWeights(f.params);
    var n := Min(s.samples, 32);
    assert EvalIndices(s, n) == seq<u32>(n, i => (s.offset + i) % 0x1_0000_0000);
  }

  lemma SomeSamples(input: Bytes)
    requires ParseLegJob(input).Some?
    ensures ParseLegJob(input).value.samples > 0
  {
    hide Text.ValidUtf8, Text.SplitOn, CollectLeg, LegPrefix;
  }
}
