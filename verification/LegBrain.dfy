/**
 The guardian pack object and its state file (crates/mesh-ai/src/leg_brain.rs). Each method is
 tied to the protocol functions the runs are built from.
 */
module LegBrain {
  import opened Machine
  import opened LegJob
  import opened LegTrain
  import opened Protocol
  import opened Runs
  import opened Storage
  import opened LegPack

  class LegBrainPack {
    const host: LegHost
    const file: StateFile?
    var security: LegState
    var network: LegState
    var blocks: LegState
    var transpar: LegState

    function Contents(): (m: map<LegId, LegState>)
      reads this
      ensures m.Keys == AllLegs()
    {
      map[Security := security, Network := network, Blocks := blocks, Transpar := transpar]
    }

    constructor (host: LegHost, file: StateFile?, security: LegState, network: LegState, blocks: LegState,
                 transpar: LegState)
      ensures this.host == host && this.file == file
      ensures Contents() == OfFour([security, network, blocks, transpar])
    {
      this.host, this.file := host, file;
      this.security, this.network, this.blocks, this.transpar := security, network, blocks, transpar;
    }

    function Get(leg: LegId): (b: LegState)
      reads this
      ensures leg in Contents() && b == Contents()[leg]
    {
      match leg
      case Security => security
      case Network => network
      case Blocks => blocks
      case Transpar => transpar
    }

    method Put(leg: LegId, b: LegState)
      modifies this
      ensures Contents() == old(Contents())[leg := b]
    {
      match leg
      case Security => security := b;
      case Network => network := b;
      case Blocks => blocks := b;
      case Transpar => transpar := b;
    }

    /** The job chooses the leg; check it against that leg's epoch and weights. */
    method VerifyOnly(job: Bytes, output: Bytes) returns (leg: LegId, r: Verdict<Advance<LegReport>>)
      ensures ParseLegJob(job).Some? ==> leg == ParseLegJob(job).value.leg
      ensures r == Verify(Pack(host), leg, Get(leg).epoch, Get(leg).weights, job, output)
      ensures r.Accepted? <==>
        (ParseLegJob(job).Some? && ParseLegJob(job).value.epoch == Get(leg).epoch
         && RunLeg(host, Get(leg).weights, job).Some? && output == RunLeg(host, Get(leg).weights, job).value.weights)
    {
      hide ParseLegJob, EncodePack, DecodePack, RunLeg;
      var parsed := ParseLegLoop(job);
      if parsed.None? {
        return Security, Refused(BadJob);
      }
      var spec := parsed.value;
      leg := spec.leg;
      var live := Get(leg);
      if spec.epoch != live.epoch {
        return leg, Refused(StaleEpoch(spec.epoch, live.epoch));
      }
      var trained := RunLegTrain(host, live.weights, job);
      if trained.None? {
        return leg, Refused(TrainFailed);
      }
      var t := trained.value;
      if output != t.weights {
        return leg, Refused(VerifyFailed);
      }
      r := Accepted(Advance(spec.epoch, spec.steps, t));
    }

    /** Advance one guardian and leave the other three alone; a stale advance touches nothing. */
    method ApplyAdvance(leg: LegId, adv: Advance<LegReport>) returns (r: Verdict<()>)
      modifies this, file
      ensures match Apply(Pack(host), old(Get(leg)), adv, 0)
        case Accepted(b) =>
          && r == Accepted(()) && Contents() == old(Contents())[leg := b]
          && (file != null ==> file.Wrote(old(file.bytes), EncodePack(Contents())))
        case Refused(why) =>
          && r == Refused(why) && Contents() == old(Contents())
          && (file != null ==> file.bytes == old(file.bytes))
    {
      hide EncodePack, DecodePack;
      var live := Get(leg);
      if adv.jobEpoch != live.epoch {
        return Refused(StaleEpoch(adv.jobEpoch, live.epoch));
      }
      Put(leg, live.(weights := adv.trained.weights, digest := adv.trained.digest,
                     epoch := SaturatingAdd64(live.epoch, 1), height := 0, report := adv.trained.report,
                     advances := SaturatingAdd64(live.advances, 1),
                     stepsTotal := SaturatingAdd64(live.stepsTotal, adv.steps)));
      var saved := Save();
      r := Accepted(());
    }

    /** The trained output of a job for the live epoch advances its guardian; any other leaves pack and file alone. */
    method VerifyAndAdvance(job: Bytes, output: Bytes) returns (leg: LegId, r: Verdict<()>)
      modifies this, file
      ensures r.Accepted? <==>
        (ParseLegJob(job).Some? && ParseLegJob(job).value.epoch == old(Get(leg)).epoch
         && RunLeg(host, old(Get(leg)).weights, job).Some?
         && output == RunLeg(host, old(Get(leg)).weights, job).value.weights)
      ensures r.Refused? ==> Contents() == old(Contents()) && (file != null ==> file.bytes == old(file.bytes))
      ensures r.Accepted? ==>
        && Trained(Get(leg).weights, Get(leg).digest, Get(leg).report)
           == RunLeg(host, old(Get(leg)).weights, job).value
        && Get(leg).epoch == Min(old(Get(leg)).epoch + 1, MAX_U64)
        && Get(leg).advances == Min(old(Get(leg)).advances + 1, MAX_U64)
        && Get(leg).stepsTotal == Min(old(Get(leg)).stepsTotal + ParseLegJob(job).value.steps, MAX_U64)
      ensures ParseLegJob(job).Some? ==> leg == ParseLegJob(job).value.leg
      ensures match Verify(Pack(host), leg, old(Get(leg)).epoch, old(Get(leg)).weights, job, output)
        case Refused(why) =>
          && r == Refused(why) && Contents() == old(Contents())
          && (file != null ==> file.bytes == old(file.bytes))
        case Accepted(adv) =>
          && r == Accepted(()) && Contents() == old(Contents())[leg := Advanced(Pack(host), old(Get(leg)), adv, 0)]
          && (file != null ==> file.Wrote(old(file.bytes), EncodePack(Contents())))
    {
      hide EncodePack, DecodePack, ParseLegJob;
      var v;
      leg, v := VerifyOnly(job, output);
      if v.Refused? {
        return leg, Refused(v.why);
      }
      r := ApplyAdvance(leg, v.value);
    }

    method Save() returns (ok: bool)
      modifies file
      ensures file != null ==> file.Wrote(old(file.bytes), EncodePack(Contents()))
      ensures ok && file != null ==> file.bytes == Some(EncodePack(Contents()))
    {
      if file == null {
        return true;
      }
      var out := ToPersistBytes();
      ok := file.Write(out);
    }

    method ToPersistBytes() returns (out: Bytes)
      ensures out == EncodePack(Contents())
    {
      hide EncodeLeg, PackMagic;
      out := PackMagic();
      out := out + EncodeLeg(security);
      out := out + EncodeLeg(network);
      out := out + EncodeLeg(blocks);
      out := out + EncodeLeg(transpar);
      var p := Four(Contents());
      assert EncodeLegs(p[3..]) == EncodeLeg(transpar) + EncodeLegs(p[3..][1..]);
      assert EncodeLegs(p[2..]) == EncodeLeg(blocks) + EncodeLegs(p[3..]) by { assert p[2..][1..] == p[3..]; }
      assert EncodeLegs(p[1..]) == EncodeLeg(network) + EncodeLegs(p[2..]) by { assert p[1..][1..] == p[2..]; }
      assert EncodeLegs(p) == EncodeLeg(security) + EncodeLegs(p[1..]);
    }
  }

  // ---------- reading a pack ----------

  /** `read_one`: the record at o, and where the next one starts. */
  method ReadOne(h: LegHost, bytes: Bytes, o0: nat) returns (r: Option<LegState>, o: nat)
    requires o0 <= |bytes|
    ensures r == DecodeLeg(h, bytes[o0..])
    ensures r.Some? ==> o == o0 + RECORD_LEN <= |bytes|
  {
    hide GetU64, GetU32;
    ghost var s := bytes[o0..];
    o := o0;
    if |bytes| < o + 8 * 3 + 8 * 2 + 32 + 4 {
      return None, o;
    }
    var epoch := GetU64(bytes[o..o + 8]);
    assert bytes[o..o + 8] == s[0..8];
    o := o + 8;
    var advances := GetU64(bytes[o..o + 8]);
    assert bytes[o..o + 8] == s[8..16];
    o := o + 8;
    var steps := GetU64(bytes[o..o + 8]);
    assert bytes[o..o + 8] == s[16..24];
    o := o + 8;
    var loss := GetU64(bytes[o..o + 8]);
    assert bytes[o..o + 8] == s[24..32];
    o := o + 8;
    var acc := GetU64(bytes[o..o + 8]);
    assert bytes[o..o + 8] == s[32..40];
    o := o + 8;
    var digest := bytes[o..o + 32];
    assert digest == s[40..72];
    o := o + 32;
    var wlen := GetU32(bytes[o..o + 4]);
    assert bytes[o..o + 4] == s[72..76];
    o := o + 4;
    if |bytes| < o + wlen || wlen != LEG_BLOB_LEN {
      return None, o;
    }
    var weights := bytes[o..o + wlen];
    assert weights == s[76..76 + wlen];
    o := o + wlen;
    if h.hash(weights) != digest {
      return None, o;
    }
    r := Some(Core(epoch, weights, digest, 0, steps, advances, LegReport(loss, acc)));
  }

  method FromPersistBytes(h: LegHost, bytes: Bytes) returns (r: Option<map<LegId, LegState>>)
    ensures r == DecodePack(h, bytes)
  {
    hide DecodeLeg, PackMagic;
    if |bytes| < PACK_MAGIC_LEN || bytes[..PACK_MAGIC_LEN] != PackMagic() {
      return None;
    }
    hide DecodeLegs;
    var o := PACK_MAGIC_LEN;
    LegsStep(h, bytes, o, 4);
    var security, o1 := ReadOne(h, bytes, o);
    if security.None? {
      return None;
    }
    LegsStep(h, bytes, o1, 3);
    var network, o2 := ReadOne(h, bytes, o1);
    if network.None? {
      return None;
    }
    LegsStep(h, bytes, o2, 2);
    var blocks, o3 := ReadOne(h, bytes, o2);
    if blocks.None? {
      return None;
    }
    LegsStep(h, bytes, o3, 1);
    var transpar, o4 := ReadOne(h, bytes, o3);
    if transpar.None? {
      return None;
    }
    LegsStep(h, bytes, o4, 0);
    var bs := [security.value, network.value, blocks.value, transpar.value];
    assert bs == [security.value] + ([network.value] + ([blocks.value] + ([transpar.value] + [])));
    r := Some(OfFour(bs));
  }

  lemma LegsStep(h: LegHost, bytes: Bytes, o: nat, n: nat)
    requires o <= |bytes|
    ensures n == 0 ==> DecodeLegs(h, bytes[o..], n) == Some([])
    ensures n > 0 && DecodeLeg(h, bytes[o..]) == None ==> DecodeLegs(h, bytes[o..], n) == None
    ensures n > 0 && DecodeLeg(h, bytes[o..]).Some? ==>
      && o + RECORD_LEN <= |bytes|
      && var rest := DecodeLegs(h, bytes[o + RECORD_LEN..], n - 1);
         DecodeLegs(h, bytes[o..], n)
         == if rest.None? then None else Some([DecodeLeg(h, bytes[o..]).value] + rest.value)
  {
    hide DecodeLeg;
    DecodedLegLength(h, bytes[o..]);
    if |bytes| >= o + RECORD_LEN {
      assert bytes[o..][RECORD_LEN..] == bytes[o + RECORD_LEN..];
    }
  }

  /** `load_or_genesis`: the saved guardians if it loads, else four first models, saved at once. */
  method LoadOrGenesis(h: LegHost, file: StateFile) returns (p: LegBrainPack)
    modifies file
    ensures fresh(p) && p.host == h && p.file == file
    ensures match (match old(file.bytes) case Some(s) => DecodePack(h, s) case None => None)
      case Some(loaded) => p.Contents() == loaded && file.bytes == old(file.bytes)
      case None => p.Contents() == Genesis(Pack(h))
                   && file.Wrote(old(file.bytes), EncodePack(Genesis(Pack(h))))
  {
    hide EncodePack, DecodeLegs;
    if file.bytes.Some? {
      var loaded := FromPersistBytes(h, file.bytes.value);
      if loaded.Some? {
        var m := loaded.value;
        p := new LegBrainPack(h, file, m[Security], m[Network], m[Blocks], m[Transpar]);
        return;
      }
    }
    p := new LegBrainPack(h, file, FirstLeg(h, Security), FirstLeg(h, Network),
                          FirstLeg(h, Blocks), FirstLeg(h, Transpar));
    assert p.Contents() == Genesis(Pack(h));
    var saved := p.Save();
  }
}
