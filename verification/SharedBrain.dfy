/**
 The brain object and its state file (crates/mesh-ai-v2/src/brain.rs). Each method is tied to
 the protocol functions the runs are built from.
 */
module SharedBrain {
  import opened Machine
  import opened WeightCodec
  import opened Job
  import opened Training
  import opened Genesis
  import opened Protocol
  import opened Runs
  import opened Records
  import opened Brain
  import opened Storage

  class SharedBrainV2 {
    const host: Host
    const file: StateFile?
    var epoch: u64
    var weights: Bytes
    var digest: Digest
    var updatedHeight: u64
    var trainStepsTotal: u64
    var lastLoss: i32
    var lastAcc: i32
    var advances: u64

    function Contents(): State
      reads this
    {
      Core(epoch, weights, digest, updatedHeight, trainStepsTotal, advances, Report(lastLoss, lastAcc))
    }

    constructor (host: Host, file: StateFile?, b: State)
      ensures this.host == host && this.file == file && Contents() == b
    {
      this.host, this.file := host, file;
      epoch, weights, digest, updatedHeight := b.epoch, b.weights, b.digest, b.height;
      trainStepsTotal, lastLoss, lastAcc, advances := b.stepsTotal, b.report.loss, b.report.accuracy, b.advances;
    }

    method ToPersistBytes() returns (out: Bytes)
      ensures out == EncodeState(Contents())
    {
      hide PutU64, PutI32, LengthField, StateMagic, Cat;
      ghost var p := StateFields(Contents());
      CatSteps(p);
      out := StateMagic();
      out := out + PutU64(epoch);
      assert out == Cat(p[..2]);
      out := out + PutU64(updatedHeight);
      assert out == Cat(p[..3]);
      out := out + PutU64(trainStepsTotal);
      assert out == Cat(p[..4]);
      out := out + PutU64(advances);
      assert out == Cat(p[..5]);
      out := out + PutI32(lastLoss);
      assert out == Cat(p[..6]);
      out := out + PutI32(lastAcc);
      assert out == Cat(p[..7]);
      out := out + digest;
      assert out == Cat(p[..8]);
      out := out + LengthField(|weights|);
      assert out == Cat(p[..9]);
      out := out + weights;
      assert out == Cat(p[..10]);
      assert p[..10] == p;
    }

    method Save() returns (ok: bool)
      modifies file
      ensures file != null ==> file.Wrote(old(file.bytes), EncodeState(Contents()))
      ensures ok && file != null ==> file.bytes == Some(EncodeState(Contents()))
    {
      if file == null {
        return true;
      }
      var out := ToPersistBytes();
      ok := file.Write(out);
    }

    /** Re-execute and compare; touches nothing. Accepts nothing but what the job makes of the live weights. */
    method VerifyOnly(job: Bytes, output: Bytes) returns (r: Verdict<Advance<Report>>)
      ensures r == Verify(V2(host), Solo, epoch, weights, job, output)
      ensures r.Accepted? <==>
        (ParseJob(job).Ok? && ParseJob(job).value.epoch == epoch
         && RunJob(host, weights, job).Ok? && output == RunJob(host, weights, job).value.weights)
    {
      hide ParseJob, RunJob, EncodeFamily, DecodeFamily;
      var parsed := Parse(job);
      if parsed.Err? {
        return Refused(BadJob);
      }
      var spec := parsed.value;
      if spec.epoch != epoch {
        return Refused(StaleEpoch(spec.epoch, epoch));
      }
      var run := RunJobCpu(host, weights, job);
      if run.Err? {
        return Refused(TrainFailed);
      }
      var t := run.value;
      if output != t.weights {
        return Refused(VerifyFailed);
      }
      r := Accepted(Advance(spec.epoch, spec.steps, Trained(t.weights, t.digest, Report(t.loss, t.accuracy))));
    }

    /** Commit a verified advance if the epoch still matches; a stale one changes neither brain nor file. */
    method ApplyAdvance(adv: Advance<Report>, height: u64) returns (r: Verdict<()>)
      modifies this, file
      ensures match Apply(V2(host), old(Contents()), adv, height)
        case Accepted(b) =>
          && r == Accepted(()) && Contents() == b
          && (file != null ==> file.Wrote(old(file.bytes), EncodeState(b)))
        case Refused(why) =>
          && r == Refused(why) && Contents() == old(Contents())
          && (file != null ==> file.bytes == old(file.bytes))
    {
      hide EncodeState, V2, Apply;
      V2Applies(host, Contents(), adv, height);
      if adv.jobEpoch != epoch {
        return Refused(StaleEpoch(adv.jobEpoch, epoch));
      }
      weights := adv.trained.weights;
      digest := adv.trained.digest;
      epoch := SaturatingAdd64(epoch, 1);
      updatedHeight := height;
      trainStepsTotal := SaturatingAdd64(trainStepsTotal, adv.steps);
      lastLoss := adv.trained.report.loss;
      lastAcc := adv.trained.report.accuracy;
      advances := SaturatingAdd64(advances, 1);
      var saved := Save();
      r := Accepted(());
    }

    /**
     With no other thread in between, the output of `run_job` on the live weights always advances, and any
     other output leaves brain and file as they were.
     */
    method VerifyAndAdvance(job: Bytes, output: Bytes, height: u64) returns (r: Verdict<()>)
      modifies this, file
      ensures r.Accepted? <==>
        (ParseJob(job).Ok? && ParseJob(job).value.epoch == old(epoch)
         && RunJob(host, old(weights), job).Ok? && output == RunJob(host, old(weights), job).value.weights)
      ensures r.Refused? ==> Contents() == old(Contents()) && (file != null ==> file.bytes == old(file.bytes))
      ensures r.Accepted? ==>
        && weights == output && updatedHeight == height && advances == Min(old(advances) + 1, MAX_U64)
        && epoch == Min(old(epoch) + 1, MAX_U64)
        && trainStepsTotal == Min(old(trainStepsTotal) + ParseJob(job).value.steps, MAX_U64)
        && Result(lastLoss, lastAcc, digest, weights) == RunJob(host, old(weights), job).value
      ensures match Verify(V2(host), Solo, old(epoch), old(weights), job, output)
        case Refused(why) =>
          && r == Refused(why) && Contents() == old(Contents())
          && (file != null ==> file.bytes == old(file.bytes))
        case Accepted(adv) =>
          && r == Accepted(()) && Contents() == Advanced(V2(host), old(Contents()), adv, height)
          && (file != null ==> file.Wrote(old(file.bytes), EncodeState(Contents())))
    {
      hide EncodeState, ParseJob, RunJob, EncodeFamily, DecodeFamily;
      var v := VerifyOnly(job, output);
      if v.Refused? {
        return Refused(v.why);
      }
      r := ApplyAdvance(v.value, height);
    }
  }

  lemma V2Applies(h: Host, b: State, adv: Advance<Report>, height: u64)
    ensures adv.jobEpoch != b.epoch ==> Apply(V2(h), b, adv, height) == Refused(StaleEpoch(adv.jobEpoch, b.epoch))
    ensures var next := Core(SaturatingAdd64(b.epoch, 1), adv.trained.weights, adv.trained.digest, height,
                             SaturatingAdd64(b.stepsTotal, adv.steps), SaturatingAdd64(b.advances, 1),
                             adv.trained.report);
      adv.jobEpoch == b.epoch ==> Apply(V2(h), b, adv, height) == Accepted(next)
  {
  }

  /** Appending ten fields one at a time. */
  lemma CatSteps(p: seq<Bytes>)
    requires |p| == 10
    ensures Cat(p[..1]) == p[0]
    ensures forall n :: 1 <= n < 10 ==> Cat(p[..n + 1]) == Cat(p[..n]) + p[n]
  {
    assert p[..1][..0] == [];
    assert Cat(p[..1]) == [] + p[0];
    forall n | 1 <= n < 10 ensures Cat(p[..n + 1]) == Cat(p[..n]) + p[n] {
      assert p[..n + 1][..n] == p[..n];
    }
  }

  /** `from_persist_bytes`, reading with a cursor. */
  method FromPersistBytes(h: Host, bytes: Bytes) returns (r: Option<State>)
    ensures r == DecodeState(h, bytes)
  {
    hide GetU64, GetI32, GetU32, StateMagic;
    if |bytes| < STATE_MAGIC_LEN + 8 * 4 + 4 + 4 + 32 + 4 {
      return None;
    }
    if bytes[..STATE_MAGIC_LEN] != StateMagic() {
      return None;
    }
    var o := STATE_MAGIC_LEN;
    var epoch := GetU64(bytes[o..o + 8]);
    o := o + 8;
    var height := GetU64(bytes[o..o + 8]);
    o := o + 8;
    var steps := GetU64(bytes[o..o + 8]);
    o := o + 8;
    var advances := GetU64(bytes[o..o + 8]);
    o := o + 8;
    var loss := GetI32(bytes[o..o + 4]);
    o := o + 4;
    var acc := GetI32(bytes[o..o + 4]);
    o := o + 4;
    var digest := bytes[o..o + 32];
    o := o + 32;
    var wlen := GetU32(bytes[o..o + 4]);
    o := o + 4;
    if |bytes| < o + wlen {
      return None;
    }
    var weights := bytes[o..o + wlen];
    if h.hash(weights) != digest {
      return None;
    }
    r := Some(Core(epoch, weights, digest, height, steps, advances, Report(loss, acc)));
  }

  /** `load_or_genesis`: the file's brain if it loads, else genesis, which is saved at once. */
  method LoadOrGenesis(h: Host, file: StateFile) returns (b: SharedBrainV2)
    modifies file
    ensures fresh(b) && b.host == h && b.file == file
    ensures match (match old(file.bytes) case Some(s) => DecodeState(h, s) case None => None)
      case Some(loaded) => b.Contents() == loaded && file.bytes == old(file.bytes)
      case None => b.Contents() == GenesisState(h)
                   && file.Wrote(old(file.bytes), EncodeState(GenesisState(h)))
  {
    hide EncodeState, DecodeState, GenesisNet, EncodeWeights;
    if file.bytes.Some? {
      var loaded := FromPersistBytes(h, file.bytes.value);
      if loaded.Some? {
        b := new SharedBrainV2(h, file, loaded.value);
        return;
      }
    }
    var w := GenesisBlob(h);
    b := new SharedBrainV2(h, file, Core(0, w, h.hash(w), 0, 0, 0, Report(0, 0)));
    var saved := b.Save();
  }
}
