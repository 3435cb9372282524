/**
 The v2 shared brain (crates/mesh-ai-v2/src/brain.rs): its state file, the object that
 verifies and advances, and the instance of the protocol it runs.
 */
module Brain {
  import opened Machine
  import opened Text
  import opened Records
  import opened Network
  import opened Q16
  import opened WeightCodec
  import opened Job
  import opened Training
  import opened Exactness
  import opened Genesis
  import opened Protocol
  import opened Runs

  datatype Report = Report(loss: i32, accuracy: i32)

  type State = Core<Report>

  /** The v2 family has one member. */
  datatype Solo = Solo

  // ---------- state file ----------

  const STATE_MAGIC_LEN: nat := 16
  const STATE_HEADER_LEN: nat := 92

  function StateMagic(): (b: Bytes)
    ensures |b| == STATE_MAGIC_LEN
  {
    Ascii("MESHBRAINSTATEv2")
  }

  function LengthField(n: nat): Bytes { PutU32(n % 0x1_0000_0000) }

  function StateFields(b: State): (p: seq<Bytes>)
    ensures |p| == 10
  {
    [StateMagic(), PutU64(b.epoch), PutU64(b.height), PutU64(b.stepsTotal), PutU64(b.advances),
     PutI32(b.report.loss), PutI32(b.report.accuracy), b.digest, LengthField(|b.weights|), b.weights]
  }

  function EncodeState(b: State): Bytes { Cat(StateFields(b)) }

  function DecodeState(h: Host, s: Bytes): Option<State> {
    if |s| < STATE_HEADER_LEN || s[..16] != StateMagic() then None
    else
      var len := GetU32(s[88..92]);
      if |s| < STATE_HEADER_LEN + len then None
      else
        var weights := s[92..92 + len];
        if h.hash(weights) != s[56..88] then None
        else Some(Core(GetU64(s[16..24]), weights, s[56..88], GetU64(s[24..32]), GetU64(s[32..40]),
                       GetU64(s[40..48]), Report(GetI32(s[48..52]), GetI32(s[52..56]))))
  }

  /** A brain whose digest is that of its weights and whose blob has the contract's length. */
  predicate SoundState(h: Host, b: State) {
    |b.weights| == BLOB_LEN && b.digest == h.hash(b.weights)
  }

  lemma StateOffsets(b: State)
    ensures var p := StateFields(b);
      && Offset(p, 0) == 0 && Offset(p, 1) == 16 && Offset(p, 2) == 24 && Offset(p, 3) == 32
      && Offset(p, 4) == 40 && Offset(p, 5) == 48 && Offset(p, 6) == 52 && Offset(p, 7) == 56
      && Offset(p, 8) == 88 && Offset(p, 9) == 92 && Offset(p, 10) == 92 + |b.weights|
  {
    hide StateMagic, PutU64, PutI32, PutU32;
    var p := StateFields(b);
    assert Offset(p, 1) == 16;
    assert Offset(p, 2) == 24;
    assert Offset(p, 3) == 32;
    assert Offset(p, 4) == 40;
    assert Offset(p, 5) == 48;
    assert Offset(p, 6) == 52;
    assert Offset(p, 7) == 56;
    assert Offset(p, 8) == 88;
    assert Offset(p, 9) == 92;
  }

  lemma StateSlices(b: State)
    ensures var s := EncodeState(b);
      && |s| == 92 + |b.weights|
      && s[..16] == StateMagic()
      && s[16..24] == PutU64(b.epoch) && s[24..32] == PutU64(b.height)
      && s[32..40] == PutU64(b.stepsTotal) && s[40..48] == PutU64(b.advances)
      && s[48..52] == PutI32(b.report.loss) && s[52..56] == PutI32(b.report.accuracy)
      && s[56..88] == b.digest && s[88..92] == LengthField(|b.weights|)
      && s[92..] == b.weights
  {
    hide StateMagic, PutU64, PutI32, PutU32, Cat, Offset;
    var p := StateFields(b);
    StateOffsets(b);
    CatLength(p);
    CatAt(p, 0);
    CatAt(p, 1);
    CatAt(p, 2);
    CatAt(p, 3);
    CatAt(p, 4);
    CatAt(p, 5);
    CatAt(p, 6);
    CatAt(p, 7);
    CatAt(p, 8);
    CatAt(p, 9);
    var s := Cat(p);
    assert s[..16] == s[0..16] && s[92..] == s[92..92 + |b.weights|];
  }

  /** A saved brain loads back as it was. */
  lemma StateRoundTrip(h: Host, b: State)
    requires SoundState(h, b)
    ensures DecodeState(h, EncodeState(b)) == Some(b)
  {
    hide StateMagic, PutU64, PutI32, PutU32, GetU32, GetU64, GetI32, EncodeState;
    StateSlices(b);
    U64RoundTrip(b.epoch);
    U64RoundTrip(b.height);
    U64RoundTrip(b.stepsTotal);
    U64RoundTrip(b.advances);
    I32RoundTrip(b.report.loss);
    I32RoundTrip(b.report.accuracy);
    U32RoundTrip(|b.weights|);
    var s := EncodeState(b);
    assert s[92..92 + |b.weights|] == s[92..];
  }

  /** A state file cut short at any byte does not load. */
  lemma CutStateRejected(h: Host, b: State, cut: Bytes)
    requires |b.weights| < 0x1_0000_0000 && cut < EncodeState(b)
    ensures DecodeState(h, cut) == None
  {
    hide StateMagic, PutU64, PutI32, PutU32, GetU32, GetU64, GetI32, EncodeState;
    StateSlices(b);
    if |cut| >= 92 {
      assert cut[88..92] == EncodeState(b)[88..92];
      U32RoundTrip(|b.weights|);
    }
  }

  // ---------- the protocol instance ----------

  function SpecOf(input: Bytes): Option<JobSpec<Solo>> {
    match ParseJob(input)
    case Ok(s) => Some(JobSpec(Solo, s.epoch, s.steps))
    case Err(_) => None
  }

  function TrainedBy(h: Host, weights: Bytes, input: Bytes): Option<Trained<Report>> {
    match RunJob(h, weights, input)
    case Ok(r) => Some(Trained(r.weights, r.digest, Report(r.loss, r.accuracy)))
    case Err(_) => None
  }

  function GenesisState(h: Host): State {
    var w := EncodeWeights(GenesisNet(h));
    Core(0, w, h.hash(w), 0, 0, 0, Report(0, 0))
  }

  function EncodeFamily(m: map<Solo, State>): Bytes {
    if Solo in m then EncodeState(m[Solo]) else []
  }

  function DecodeFamily(h: Host, s: Bytes): Option<map<Solo, State>> {
    match DecodeState(h, s)
    case Some(b) => Some(map[Solo := b])
    case None => None
  }

  function V2(h: Host): Contract<Solo, Report> {
    Contract({Solo}, SpecOf, (w, j) => TrainedBy(h, w, j), _ => GenesisState(h), t => t,
             b => SoundState(h, b), EncodeFamily, s => DecodeFamily(h, s))
  }

  lemma V2StoresSoundFamilies(h: Host, m: map<Solo, State>)
    requires SoundFamily(V2(h), m)
    ensures DecodeFamily(h, EncodeFamily(m)) == Some(m)
    ensures forall cut :: cut < EncodeFamily(m) ==> DecodeFamily(h, cut) == None
  {
    hide EncodeState, DecodeState, StateFields;
    assert Solo in m && SoundState(h, m[Solo]);
    StateRoundTrip(h, m[Solo]);
    assert m == map[Solo := m[Solo]];
    forall cut | cut < EncodeFamily(m) ensures DecodeFamily(h, cut) == None {
      CutStateRejected(h, m[Solo], cut);
    }
  }

  /** The v2 brain meets everything the protocol asks of a contract. */
  lemma V2IsLawful(h: Host)
    ensures Lawful(V2(h))
  {
    hide EncodeFamily, DecodeFamily, ParseJob, RunJob, EncodeWeights;
    var c := V2(h);
    forall b: State, w, job, steps: u32, epoch: u64, t: u64 | c.sound(b) && c.train(w, job).Some?
      ensures c.sound(Advanced(c, b, Advance(epoch, steps, c.train(w, job).value), t))
    {
      RunJobSound(h, w, job);
    }
    forall m: map<Solo, State> | SoundFamily(c, m)
      ensures c.decode(c.encode(m)) == Some(m)
    {
      V2StoresSoundFamilies(h, m);
    }
    forall m: map<Solo, State>, cut | SoundFamily(c, m) && cut < c.encode(m)
      ensures c.decode(cut) == None
    {
      V2StoresSoundFamilies(h, m);
    }
  }

  lemma RunJobSound(h: Host, weights: Bytes, input: Bytes)
    requires RunJob(h, weights, input).Ok?
    ensures var r := RunJob(h, weights, input).value;
      |r.weights| == BLOB_LEN && r.digest == h.hash(r.weights)
  {
    hide ParseJob, ValidDataset, DecodeWeights;
    AcceptedIsNormal(input);
  }

  // ---------- reachable v2 brains ----------

  lemma {:induction false} ReplayBoxed(h: Host, log: Log)
    requires Lineage(V2(h), Solo, log)
    ensures BoxedBlob(Replay(V2(h), Solo, log).weights)
  {
    hide BoxedBlob, ParseJob, RunJob, EncodeFamily, DecodeFamily, EncodeWeights;
    if log == [] {
      GenesisBoxed(h);
    } else {
      var n := |log| - 1;
      LineagePrefix(V2(h), Solo, log, n);
      assert EntryOk(V2(h), Solo, log, n);
      JobOutputBoxed(h, Replay(V2(h), Solo, log[..n]).weights, log[n].job);
    }
  }

  /** Every v2 brain any run can reach is storable, decodes to a network, and has all weights in the box. */
  lemma ReachableBrain(h: Host, states: seq<Sys<Solo, Report>>, events: seq<Event<Solo>>, i: nat)
    requires Run(V2(h), states, events) && i <= |events| <= MAX_U64
    ensures Solo in states[i].live && Solo in states[i].log
    ensures SoundState(h, states[i].live[Solo]) && BoxedBlob(states[i].live[Solo].weights)
    ensures states[i].live[Solo] == Replay(V2(h), Solo, states[i].log[Solo])
    ensures states[i].live[Solo].epoch == |states[i].log[Solo]|
  {
    hide Next, BoxedBlob, Lawful, Replay, Lineage;
    V2IsLawful(h);
    LiveIsGenesisFolded(V2(h), states, events, i, Solo);
    ReplayBoxed(h, states[i].log[Solo]);
  }

  /**
   On every v2 brain any run can reach, every step of every accepted job is exact in the first layer,
   the loss, the second layer's error and the first layer's update, and descends exactly at its rate.
   */
  lemma ReachableJobsExact(h: Host, states: seq<Sys<Solo, Report>>, events: seq<Event<Solo>>, i: nat, input: Bytes,
                           n: nat)
    requires Run(V2(h), states, events) && i <= |events| <= MAX_U64
    requires ValidDataset(h.dataset) && ParseJob(input).Ok? && n < ParseJob(input).value.steps
    ensures Solo in states[i].live && DecodeWeights(states[i].live[Solo].weights).Some?
    ensures Normal(ParseJob(input).value)
    ensures var s := ParseJob(input).value;
      var lr := QFromMilli(s.lrMilli);
      var now := TrainFor(DecodeWeights(states[i].live[Solo].weights).value, h.dataset, s, lr, n).net;
      var idx := StepIndex(s, n);
      && StepExact(now, SamplePixels(h.dataset, idx), SampleLabel(h.dataset, idx), lr)
      && forall w: i32, g: i32 :: Nudge(w, lr, g) == Clamp(w - (lr * g) / 0x1_0000, -BOX, BOX)
  {
    hide Next, NetInBox, DecodeWeights, ValidDataset, Replay;
    hide ParseJob, TrainFor, StepExact, Nudge, QFromMilli, SamplePixels;
    ReachableBrain(h, states, events, i);
    AcceptedIsNormal(input);
    EveryStepExact(DecodeWeights(states[i].live[Solo].weights).value, h.dataset, ParseJob(input).value, n);
  }

  /**
   An honest worker is never turned away: for every reachable brain and all parameters, training
   the job `encode_job` writes on the live weights succeeds just when the build's dataset is
   valid, and its output then verifies and advances the brain by one epoch.
   */
  lemma HonestWorkerAccepted(h: Host, states: seq<Sys<Solo, Report>>, events: seq<Event<Solo>>, i: nat,
                             steps: u32, lrMilli: u32, samples: u32, offset: u32, height: u64)
    requires Run(V2(h), states, events) && i <= |events| < MAX_U64
    ensures Solo in states[i].live
    ensures var b := states[i].live[Solo];
      var job := EncodeJob(b.epoch, steps, lrMilli, samples, offset);
      var run := RunJob(h, b.weights, job);
      && (run.Ok? <==> ValidDataset(h.dataset))
      && (run.Ok? ==>
            var v := Verify(V2(h), Solo, b.epoch, b.weights, job, run.value.weights);
            && v.Accepted?
            && Apply(V2(h), b, v.value, height).Accepted?
            && Apply(V2(h), b, v.value, height).value.epoch == b.epoch + 1
            && Apply(V2(h), b, v.value, height).value.weights == run.value.weights)
  {
    hide Next, EncodeJob, ParseJob, ValidDataset, DecodeWeights;
    hide NetInBox, EncodeFamily, DecodeFamily, Accuracy, EncodeWeights, Replay;
    ReachableBrain(h, states, events, i);
    EpochBelowRunLength(h, states, events, i);
    var b := states[i].live[Solo];
    JobRoundTrip(b.epoch, steps, lrMilli, samples, offset);
  }

  lemma EpochBelowRunLength(h: Host, states: seq<Sys<Solo, Report>>, events: seq<Event<Solo>>, i: nat)
    requires Run(V2(h), states, events) && i <= |events| <= MAX_U64
    ensures Solo in states[i].live && states[i].live[Solo].epoch <= i
  {
    hide Next, Lawful, Replay, Lineage, LogsOk;
    V2IsLawful(h);
    ReachableBrain(h, states, events, i);
    RunInv(V2(h), states, events, i);
  }
}
