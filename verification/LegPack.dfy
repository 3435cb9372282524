/**
 The guardian pack (crates/mesh-ai/src/leg_brain.rs): four brains with independent epochs in
 one object and one state file, as an instance of the protocol with four keys.
 */
module LegPack {
  import opened Machine
  import opened Text
  import opened Records
  import opened LegJob
  import opened LegTrain
  import opened Protocol
  import opened Runs

  type LegState = Core<LegReport>

  // ---------- one leg's record ----------

  const RECORD_HEADER: nat := 76
  const RECORD_LEN: nat := RECORD_HEADER + LEG_BLOB_LEN
  const PACK_MAGIC_LEN: nat := 14

  function PackMagic(): (b: Bytes)
    ensures |b| == PACK_MAGIC_LEN
  {
    Ascii("MESHLEGSTATEv1")
  }

  function LegRecord(b: LegState): (p: seq<Bytes>)
    ensures |p| == 8
  {
    [PutU64(b.epoch), PutU64(b.advances), PutU64(b.stepsTotal), PutU64(b.report.lossBits),
     PutU64(b.report.accuracyBits), b.digest, PutU32(|b.weights| % 0x1_0000_0000), b.weights]
  }

  /** `write_one`. */
  function EncodeLeg(b: LegState): Bytes { Cat(LegRecord(b)) }

  /** `read_one` at the front of s. */
  function DecodeLeg(h: LegHost, s: Bytes): Option<LegState> {
    if |s| < RECORD_HEADER then None
    else
      var len := GetU32(s[72..76]);
      if |s| < RECORD_HEADER + len || len != LEG_BLOB_LEN then None
      else
        var weights := s[76..76 + len];
        if h.hash(weights) != s[40..72] then None
        else Some(Core(GetU64(s[0..8]), weights, s[40..72], 0, GetU64(s[16..24]), GetU64(s[8..16]),
                       LegReport(GetU64(s[24..32]), GetU64(s[32..40]))))
  }

  /** A leg keeps no height; its blob has the fixed length and its digest is that of the blob. */
  predicate SoundLeg(h: LegHost, b: LegState) {
    |b.weights| == LEG_BLOB_LEN && b.digest == h.hash(b.weights) && b.height == 0
  }

  lemma RecordOffsets(b: LegState)
    ensures var p := LegRecord(b);
      && Offset(p, 0) == 0 && Offset(p, 1) == 8 && Offset(p, 2) == 16 && Offset(p, 3) == 24
      && Offset(p, 4) == 32 && Offset(p, 5) == 40 && Offset(p, 6) == 72 && Offset(p, 7) == 76
      && Offset(p, 8) == 76 + |b.weights|
  {
    hide PutU64, PutU32;
    var p := LegRecord(b);
    assert Offset(p, 1) == 8;
    assert Offset(p, 2) == 16;
    assert Offset(p, 3) == 24;
    assert Offset(p, 4) == 32;
    assert Offset(p, 5) == 40;
    assert Offset(p, 6) == 72;
    assert Offset(p, 7) == 76;
  }

  lemma RecordSlices(b: LegState)
    ensures var s := EncodeLeg(b);
      && |s| == 76 + |b.weights|
      && s[0..8] == PutU64(b.epoch) && s[8..16] == PutU64(b.advances) && s[16..24] == PutU64(b.stepsTotal)
      && s[24..32] == PutU64(b.report.lossBits) && s[32..40] == PutU64(b.report.accuracyBits)
      && s[40..72] == b.digest && s[72..76] == PutU32(|b.weights| % 0x1_0000_0000)
      && s[76..76 + |b.weights|] == b.weights
  {
    hide PutU64, PutU32, Cat, Offset;
    var p := LegRecord(b);
    RecordOffsets(b);
    CatLength(p);
    CatAt(p, 0);
    CatAt(p, 1);
    CatAt(p, 2);
    CatAt(p, 3);
    CatAt(p, 4);
    CatAt(p, 5);
    CatAt(p, 6);
    CatAt(p, 7);
  }

  /** A record reads back as written whatever follows it; cut short, it does not read. */
  lemma RecordReads(h: LegHost, b: LegState, s: Bytes)
    requires SoundLeg(h, b)
    ensures EncodeLeg(b) <= s ==> DecodeLeg(h, s) == Some(b)
    ensures s < EncodeLeg(b) ==> DecodeLeg(h, s) == None
  {
    hide PutU64, PutU32, GetU64, GetU32, EncodeLeg;
    RecordSlices(b);
    U64RoundTrip(b.epoch);
    U64RoundTrip(b.advances);
    U64RoundTrip(b.stepsTotal);
    U64RoundTrip(b.report.lossBits);
    U64RoundTrip(b.report.accuracyBits);
    U32RoundTrip(|b.weights|);
    var e := EncodeLeg(b);
    assert e[76..] == b.weights;
    if e <= s {
      FieldsOfPrefix(e, s);
      assert s[76..76 + |b.weights|] == b.weights;
    }
    if s < e && |s| >= 76 {
      assert s[72..76] == e[72..76];
    }
  }

  lemma FieldsOfPrefix(e: Bytes, s: Bytes)
    requires e <= s && |e| >= 76
    ensures s[0..8] == e[0..8] && s[8..16] == e[8..16] && s[16..24] == e[16..24]
    ensures s[24..32] == e[24..32] && s[32..40] == e[32..40] && s[40..72] == e[40..72] && s[72..76] == e[72..76]
    ensures s[76..|e|] == e[76..]
  {
  }

  // ---------- four records ----------

  function EncodeLegs(bs: seq<LegState>): Bytes {
    if bs == [] then [] else EncodeLeg(bs[0]) + EncodeLegs(bs[1..])
  }

  function DecodeLegs(h: LegHost, s: Bytes, n: nat): (r: Option<seq<LegState>>)
    ensures r.Some? ==> |r.value| == n
  {
    if n == 0 then Some([])
    else
      match DecodeLeg(h, s)
      case None => None
      case Some(b) =>
        DecodedLegLength(h, s);
        match DecodeLegs(h, s[RECORD_LEN..], n - 1)
        case None => None
        case Some(rest) => Some([b] + rest)
  }

  lemma DecodedLegLength(h: LegHost, s: Bytes)
    ensures DecodeLeg(h, s).Some? ==> |s| >= RECORD_LEN
  {
  }

  ghost predicate AllSound(h: LegHost, bs: seq<LegState>) {
    forall i :: 0 <= i < |bs| ==> SoundLeg(h, bs[i])
  }

  lemma {:induction false} LegsRead(h: LegHost, bs: seq<LegState>, s: Bytes)
    requires AllSound(h, bs)
    ensures s == EncodeLegs(bs) ==> DecodeLegs(h, s, |bs|) == Some(bs)
    ensures s < EncodeLegs(bs) ==> DecodeLegs(h, s, |bs|) == None
  {
    hide EncodeLeg, DecodeLeg;
    if bs != [] {
      assert [bs[0]] + bs[1..] == bs;
      var e, rest := EncodeLeg(bs[0]), EncodeLegs(bs[1..]);
      assert |e| == RECORD_LEN by { RecordSlices(bs[0]); }
      RecordReads(h, bs[0], s);
      if e <= s && s <= e + rest {
        LegsRead(h, bs[1..], s[RECORD_LEN..]);
        assert s == e + s[RECORD_LEN..];
      } else if s <= e + rest {
        assert s < e;
      }
    }
  }

  function Four(m: map<LegId, LegState>): (bs: seq<LegState>)
    requires m.Keys == AllLegs()
    ensures |bs| == 4
  {
    [m[Security], m[Network], m[Blocks], m[Transpar]]
  }

  function AllLegs(): set<LegId> { {Security, Network, Blocks, Transpar} }

  function OfFour(bs: seq<LegState>): map<LegId, LegState>
    requires |bs| == 4
  {
    map[Security := bs[0], Network := bs[1], Blocks := bs[2], Transpar := bs[3]]
  }

  function EncodePack(m: map<LegId, LegState>): Bytes {
    if m.Keys == AllLegs() then PackMagic() + EncodeLegs(Four(m)) else []
  }

  function DecodePack(h: LegHost, s: Bytes): Option<map<LegId, LegState>> {
    if |s| < PACK_MAGIC_LEN || s[..PACK_MAGIC_LEN] != PackMagic() then None
    else
      match DecodeLegs(h, s[PACK_MAGIC_LEN..], 4)
      case None => None
      case Some(bs) => Some(OfFour(bs))
  }

  /** The guardian file is a prefix code: whole it loads exactly, cut at any byte it does not load. */
  lemma PackReads(h: LegHost, m: map<LegId, LegState>, s: Bytes)
    requires m.Keys == AllLegs() && forall k :: k in m ==> SoundLeg(h, m[k])
    ensures s == EncodePack(m) ==> DecodePack(h, s) == Some(m)
    ensures s < EncodePack(m) ==> DecodePack(h, s) == None
  {
    hide EncodeLegs, DecodeLegs, PackMagic, SoundLeg;
    assert OfFour(Four(m)) == m;
    assert AllSound(h, Four(m));
    if |s| >= PACK_MAGIC_LEN && s <= EncodePack(m) {
      assert s == s[..PACK_MAGIC_LEN] + s[PACK_MAGIC_LEN..];
      assert EncodePack(m)[PACK_MAGIC_LEN..] == EncodeLegs(Four(m));
      assert s[PACK_MAGIC_LEN..] <= EncodeLegs(Four(m));
      LegsRead(h, Four(m), s[PACK_MAGIC_LEN..]);
    }
  }

  // ---------- the protocol instance ----------

  function LegSpecOf(input: Bytes): Option<JobSpec<LegId>> {
    match ParseLegJob(input)
    case Some(s) => Some(JobSpec(s.leg, s.epoch, s.steps))
    case None => None
  }

  function FirstLeg(h: LegHost, leg: LegId): LegState {
    var w := EncodeLegWeights(h.first(leg));
    Core(0, w, h.hash(w), 0, 0, 0, LegReport(0, 0))
  }

  function Pack(h: LegHost): Contract<LegId, LegReport> {
    Contract(AllLegs(), LegSpecOf, (w, j) => RunLeg(h, w, j), k => FirstLeg(h, k), _ => 0,
             b => SoundLeg(h, b), EncodePack, s => DecodePack(h, s))
  }

  lemma PackIsLawful(h: LegHost)
    ensures Lawful(Pack(h))
  {
    hide EncodePack, DecodePack, RunLeg, EncodeLegWeights, ParseLegJob;
    var c := Pack(h);
    forall b: LegState, w, job, steps: u32, epoch: u64, t: u64 | c.sound(b) && c.train(w, job).Some?
      ensures c.sound(Advanced(c, b, Advance(epoch, steps, c.train(w, job).value), t))
    {
      RunLegOutput(h, w, job);
    }
    forall m: map<LegId, LegState> | SoundFamily(c, m)
      ensures c.decode(c.encode(m)) == Some(m)
    {
      PackReads(h, m, EncodePack(m));
    }
    forall m: map<LegId, LegState>, cut | SoundFamily(c, m) && cut < c.encode(m)
      ensures c.decode(cut) == None
    {
      PackReads(h, m, cut);
    }
  }

  lemma {:induction false} LegReplayDecodes(h: LegHost, leg: LegId, log: Log)
    requires Lineage(Pack(h), leg, log)
    ensures DecodeLegWeights(Replay(Pack(h), leg, log).weights).Some?
  {
    hide DecodeLegWeights, ParseLegJob, RunLeg, EncodePack, DecodePack, EncodeLegWeights;
    if log == [] {
      LegWeightsRoundTrip(h.first(leg), []);
      assert EncodeLegWeights(h.first(leg)) + [] == EncodeLegWeights(h.first(leg));
    } else {
      var n := |log| - 1;
      LineagePrefix(Pack(h), leg, log, n);
      assert EntryOk(Pack(h), leg, log, n);
      RunLegOutput(h, Replay(Pack(h), leg, log[..n]).weights, log[n].job);
    }
  }

  /** In every run of the guardians each guardian keeps its own lineage, counters and storable state. */
  lemma EveryLegHasItsLineage(h: LegHost, states: seq<Sys<LegId, LegReport>>, events: seq<Event<LegId>>, i: nat,
                              leg: LegId)
    requires Run(Pack(h), states, events) && i <= |events| <= MAX_U64
    ensures leg in states[i].live && leg in states[i].log
    ensures var b, log := states[i].live[leg], states[i].log[leg];
      && Lineage(Pack(h), leg, log) && b == Replay(Pack(h), leg, log)
      && b.epoch == b.advances == |log| && SoundLeg(h, b)
  {
    hide Next, Lawful, Replay, Lineage;
    PackIsLawful(h);
    LiveIsGenesisFolded(Pack(h), states, events, i, leg);
  }

  /**
   An honest guardian worker is never turned away: in every reachable pack, for every leg and all
   parameters, the leg's own job trains, verifies, and advances that leg by one epoch.
   */
  lemma HonestLegAccepted(h: LegHost, states: seq<Sys<LegId, LegReport>>, events: seq<Event<LegId>>, i: nat, leg: LegId,
                          steps: u32, lrMilli: u32, samples: u32, offset: u32)
    requires Run(Pack(h), states, events) && i <= |events| < MAX_U64
    ensures leg in states[i].live
    ensures var b := states[i].live[leg];
      var job := EncodeLegJob(leg, b.epoch, steps, lrMilli, samples, offset);
      var t := RunLeg(h, b.weights, job);
      && t.Some?
      && var v := Verify(Pack(h), leg, b.epoch, b.weights, job, t.value.weights);
         && v.Accepted?
         && Apply(Pack(h), b, v.value, 0).Accepted?
         && Apply(Pack(h), b, v.value, 0).value.epoch == b.epoch + 1
         && Apply(Pack(h), b, v.value, 0).value.weights == t.value.weights
  {
    hide Next, EncodeLegJob, ParseLegJob, EncodePack, DecodePack;
    hide DecodeLegWeights, EncodeLegWeights, TrainLeg, Replay, Lineage, Lawful;
    PackIsLawful(h);
    EveryLegHasItsLineage(h, states, events, i, leg);
    LegReplayDecodes(h, leg, states[i].log[leg]);
    RunInv(Pack(h), states, events, i);
    var b := states[i].live[leg];
    assert b.epoch <= i;
    LegJobRoundTrip(leg, b.epoch, steps, lrMilli, samples, offset);
  }
}
