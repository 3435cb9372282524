/**
 The files and blobs byte by byte: which letters they start with, which fields follow in which order, and
 what a first model is drawn from (crates/mesh-ai-v2/src/mlp.rs, brain.rs, q16.rs;
 crates/mesh-ai/src/legs.rs, leg_brain.rs). `Bits.FieldBytes` says how a field is written.
 */
module Layouts {
  import opened Machine
  import opened Text
  import opened Network
  import opened WeightCodec
  import opened LegJob
  import opened LegTrain
  import opened LegPack
  import opened Training
  import opened Genesis
  import opened Brain
  import opened Protocol

  // ---------- weight blobs ----------

  /**
   A network's blob: MESHBRAINv2, the count 468874, then four bytes a weight, the blocks w1, b1, w2, b2, w3,
   b3 one after the other.
   */
  lemma WeightLayout(m: Net, i: nat)
    requires i < 468874
    ensures var b := EncodeWeights(m);
      && |b| == 1875511
      && b[..11] == [77, 69, 83, 72, 66, 82, 65, 73, 78, 118, 50] && b[11..15] == [138, 39, 7, 0]
      && b[15 + 4 * i..19 + 4 * i]
         == PutI32(if i < 401408 then m.w1[i] else if i < 401920 then m.b1[i - 401408]
                   else if i < 467456 then m.w2[i - 401920] else if i < 467584 then m.b2[i - 467456]
                   else if i < 468864 then m.w3[i - 467584] else m.b3[i - 468864])
  {
    hide EncodeWords, PutI32, Ascii, PutU32;
    Letters();
    Counts();
    var b, words := EncodeWeights(m), EncodeWords(Join(m));
    EncodedWordAt(Join(m), [], i);
    assert words + [] == words;
    assert b[15 + 4 * i..19 + 4 * i] == words[4 * i..4 * i + 4];
  }

  lemma Letters()
    ensures Ascii("MESHBRAINv2") == [77, 69, 83, 72, 66, 82, 65, 73, 78, 118, 50]
    ensures Ascii("MESHLEGv1") == [77, 69, 83, 72, 76, 69, 71, 118, 49]
  {
  }

  lemma Counts()
    ensures PutU32(468874) == [138, 39, 7, 0] && PutU32(1396) == [116, 5, 0, 0]
  {
  }

  /** A guardian's blob: MESHLEGv1, the count 1396, then eight bytes a double. */
  lemma LegWeightLayout(p: LegTrain.Params, i: nat)
    requires i < 1396
    ensures var b := EncodeLegWeights(p);
      && |b| == 11181
      && b[..9] == [77, 69, 83, 72, 76, 69, 71, 118, 49] && b[9..13] == [116, 5, 0, 0]
      && b[13 + 8 * i..21 + 8 * i] == PutU64(p[i])
  {
    hide EncodeDoubles, PutU64, Ascii, PutU32;
    Letters();
    Counts();
    var b, doubles := EncodeLegWeights(p), EncodeDoubles(p);
    EncodedDoubleAt(p, [], i);
    assert doubles + [] == doubles;
    assert b[13 + 8 * i..21 + 8 * i] == doubles[8 * i..8 * i + 8];
  }

  // ---------- state files ----------

  /** A brain's file, field after field. */
  lemma StateLayout(b: State)
    ensures EncodeState(b)
         == Ascii("MESHBRAINSTATEv2") + PutU64(b.epoch) + PutU64(b.height) + PutU64(b.stepsTotal)
            + PutU64(b.advances) + PutI32(b.report.loss) + PutI32(b.report.accuracy) + b.digest
            + PutU32(|b.weights| % 0x1_0000_0000) + b.weights
  {
    hide EncodeState, PutU64, PutI32, PutU32, Ascii;
    StateSlices(b);
    TenSlices(EncodeState(b));
  }

  lemma TenSlices(s: Bytes)
    requires |s| >= 92
    ensures s == s[..16] + s[16..24] + s[24..32] + s[32..40] + s[40..48] + s[48..52] + s[52..56] + s[56..88]
                 + s[88..92] + s[92..]
  {
  }

  lemma StateLetters()
    ensures Ascii("MESHBRAINSTATEv2") == [77, 69, 83, 72, 66, 82, 65, 73, 78, 83, 84, 65, 84, 69, 118, 50]
    ensures Ascii("MESHLEGSTATEv1") == [77, 69, 83, 72, 76, 69, 71, 83, 84, 65, 84, 69, 118, 49]
  {
  }

  /** A file loads just when it is long enough, starts with the letters, and its digest is that of its weights. */
  lemma StateLoadsIff(h: Host, s: Bytes)
    ensures DecodeState(h, s).Some? <==>
      |s| >= 92 && s[..16] == [77, 69, 83, 72, 66, 82, 65, 73, 78, 83, 84, 65, 84, 69, 118, 50]
      && |s| >= 92 + GetU32(s[88..92]) && h.hash(s[92..92 + GetU32(s[88..92])]) == s[56..88]
    ensures DecodeState(h, s).Some? ==>
      var b := DecodeState(h, s).value;
      && PutU64(b.epoch) == s[16..24] && PutU64(b.height) == s[24..32] && PutU64(b.stepsTotal) == s[32..40]
      && PutU64(b.advances) == s[40..48] && PutI32(b.report.loss) == s[48..52]
      && PutI32(b.report.accuracy) == s[52..56] && b.digest == s[56..88]
      && b.weights == s[92..92 + GetU32(s[88..92])]
  {
    hide GetU64, GetI32, GetU32, PutU64, PutI32, Ascii;
    StateLetters();
    if DecodeState(h, s).Some? {
      Reencoded(s[16..24]);
      Reencoded(s[24..32]);
      Reencoded(s[32..40]);
      Reencoded(s[40..48]);
      I32Reencodes(s[48..52]);
      I32Reencodes(s[52..56]);
    }
  }

  lemma Reencoded(s: Bytes)
    requires |s| == 8
    ensures PutU64(GetU64(s)) == s
  {
    LeBytesOfValue(s);
  }

  function LegRecordText(b: LegState): Bytes {
    PutU64(b.epoch) + PutU64(b.advances) + PutU64(b.stepsTotal) + PutU64(b.report.lossBits)
    + PutU64(b.report.accuracyBits) + b.digest + PutU32(|b.weights| % 0x1_0000_0000) + b.weights
  }

  /** The guardians' file: the letters, then security, network, blocks and transpar in this order. */
  lemma PackLayout(m: map<LegId, LegState>)
    requires m.Keys == {Security, LegId.Network, Blocks, Transpar}
    ensures EncodePack(m)
         == Ascii("MESHLEGSTATEv1") + LegRecordText(m[Security]) + LegRecordText(m[LegId.Network])
            + LegRecordText(m[Blocks]) + LegRecordText(m[Transpar])
  {
    hide EncodeLeg, Ascii, LegRecordText;
    RecordLayout(m[Security]);
    RecordLayout(m[LegId.Network]);
    RecordLayout(m[Blocks]);
    RecordLayout(m[Transpar]);
    var p := Four(m);
    FourRecords(p);
    assert PackMagic() + (EncodeLeg(p[0]) + (EncodeLeg(p[1]) + (EncodeLeg(p[2]) + EncodeLeg(p[3]))))
        == PackMagic() + EncodeLeg(p[0]) + EncodeLeg(p[1]) + EncodeLeg(p[2]) + EncodeLeg(p[3]);
  }

  lemma FourRecords(p: seq<LegState>)
    requires |p| == 4
    ensures EncodeLegs(p) == EncodeLeg(p[0]) + (EncodeLeg(p[1]) + (EncodeLeg(p[2]) + EncodeLeg(p[3])))
  {
    hide EncodeLeg;
    assert p[1..][1..] == p[2..] && p[2..][1..] == p[3..] && p[3..][1..] == [];
    assert EncodeLegs(p[3..]) == EncodeLeg(p[3]) + EncodeLegs([]);
    assert EncodeLegs(p[2..]) == EncodeLeg(p[2]) + EncodeLegs(p[3..]);
    assert EncodeLegs(p[1..]) == EncodeLeg(p[1]) + EncodeLegs(p[2..]);
  }

  lemma RecordLayout(b: LegState)
    ensures EncodeLeg(b) == LegRecordText(b)
  {
    hide EncodeLeg, PutU64, PutU32;
    RecordSlices(b);
    var s := EncodeLeg(b);
    assert s == s[0..8] + s[8..16] + s[16..24] + s[24..32] + s[32..40] + s[40..72] + s[72..76] + s[76..|s|];
  }

  /** A guardian's record loads just when it is whole, of the fixed length, and its digest is that of its weights. */
  lemma LegLoadsIff(h: LegHost, s: Bytes)
    ensures DecodeLeg(h, s).Some? <==>
      |s| >= 11257 && GetU32(s[72..76]) == 11181 && h.hash(s[76..11257]) == s[40..72]
    ensures DecodeLeg(h, s).Some? ==>
      var b := DecodeLeg(h, s).value;
      && PutU64(b.epoch) == s[0..8] && PutU64(b.advances) == s[8..16] && PutU64(b.stepsTotal) == s[16..24]
      && PutU64(b.report.lossBits) == s[24..32] && PutU64(b.report.accuracyBits) == s[32..40]
      && b.digest == s[40..72] && b.weights == s[76..11257] && b.height == 0
  {
    hide GetU64, GetU32, PutU64;
    if DecodeLeg(h, s).Some? {
      Reencoded(s[0..8]);
      Reencoded(s[8..16]);
      Reencoded(s[16..24]);
      Reencoded(s[24..32]);
      Reencoded(s[32..40]);
    }
  }

  /** The guardians' file loads just when it starts with MESHLEGSTATEv1 and four records in a row load. */
  lemma PackLoadsIff(h: LegHost, s: Bytes)
    ensures DecodePack(h, s).Some? <==>
      |s| >= 14 + 4 * 11257 && s[..14] == [77, 69, 83, 72, 76, 69, 71, 83, 84, 65, 84, 69, 118, 49]
      && DecodeLeg(h, s[14..]).Some? && DecodeLeg(h, s[11271..]).Some?
      && DecodeLeg(h, s[22528..]).Some? && DecodeLeg(h, s[33785..]).Some?
    ensures DecodePack(h, s).Some? ==>
      DecodePack(h, s).value
      == map[Security := DecodeLeg(h, s[14..]).value, LegId.Network := DecodeLeg(h, s[11271..]).value,
             Blocks := DecodeLeg(h, s[22528..]).value, Transpar := DecodeLeg(h, s[33785..]).value]
  {
    hide DecodeLeg, Ascii, DecodeLegs;
    StateLetters();
    if |s| >= 14 {
      NextRecord(h, s, 14, 4);
      if |s| >= 11271 {
        NextRecord(h, s, 11271, 3);
      }
      if |s| >= 22528 {
        NextRecord(h, s, 22528, 2);
      }
      if |s| >= 33785 {
        NextRecord(h, s, 33785, 1);
      }
      NoRecords(h);
    }
  }

  lemma NextRecord(h: LegHost, s: Bytes, o: nat, n: nat)
    requires o <= |s| && n > 0
    ensures var b := DecodeLeg(h, s[o..]);
      && (b.Some? ==> |s| >= o + 11257)
      && (b.None? ==> DecodeLegs(h, s[o..], n) == None)
      && (b.Some? && DecodeLegs(h, s[o + 11257..], n - 1) == None ==> DecodeLegs(h, s[o..], n) == None)
      && (b.Some? && DecodeLegs(h, s[o + 11257..], n - 1).Some? ==>
            DecodeLegs(h, s[o..], n) == Some([b.value] + DecodeLegs(h, s[o + 11257..], n - 1).value))
  {
    hide DecodeLeg;
    DecodedLegLength(h, s[o..]);
    if |s| >= o + 11257 {
      assert s[o..][RECORD_LEN..] == s[o + 11257..];
    }
  }

  lemma NoRecords(h: LegHost)
    ensures forall t :: DecodeLegs(h, t, 0) == Some([])
  {
  }

  /** A guardian's blob is accepted just when it is long enough and starts with letters and count. */
  lemma LegWeightsAcceptance(b: Bytes)
    ensures DecodeLegWeights(b).Some? <==>
      |b| >= 11181 && b[..13] == [77, 69, 83, 72, 76, 69, 71, 118, 49, 116, 5, 0, 0]
    ensures DecodeLegWeights(b).Some? ==>
      forall i :: 0 <= i < 1396 ==> PutU64(DecodeLegWeights(b).value[i]) == b[13 + 8 * i..21 + 8 * i]
  {
    hide GetU32, GetU64, PutU64, PutU32, Ascii;
    Letters();
    Counts();
    if |b| >= 11181 {
      var count := b[9..13];
      U32Reencodes(count);
      U32RoundTrip(1396);
      assert b[..13] == b[..9] + count;
      HeaderOfNine(b[..9], count);
      if DecodeLegWeights(b).Some? {
        forall i | 0 <= i < 1396 ensures PutU64(DecodeLegWeights(b).value[i]) == b[13 + 8 * i..21 + 8 * i] {
          Reencoded(DoubleAt(b[13..], i));
          assert DoubleAt(b[13..], i) == b[13 + 8 * i..21 + 8 * i];
        }
      }
    }
  }

  lemma HeaderOfNine(a: Bytes, c: Bytes)
    requires |a| == 9 && |c| == 4
    ensures a + c == [77, 69, 83, 72, 76, 69, 71, 118, 49, 116, 5, 0, 0]
      <==> a == [77, 69, 83, 72, 76, 69, 71, 118, 49] && c == [116, 5, 0, 0]
  {
    assert (a + c)[..9] == a && (a + c)[9..] == c;
  }

  // ---------- first models ----------

  /** A first weight: the first word of the hash of MESHBRV2 backwards, block and number, brought into the scale. */
  function Drawn(h: Host, block: u64, i: u64, scale: nat): int
    requires scale > 0
  {
    var u := GetU32(h.hash([50, 86, 82, 66, 72, 83, 69, 77] + PutU64(block) + PutU64(i))[..4]);
    u % (2 * scale) - scale
  }

  /** The six blocks of the first network, numbered from 1; scales are 1/64, 1/256, 1/32, 1/128, 1/16 and 1/64. */
  lemma GenesisIs(h: Host, i: nat)
    ensures i < 401408 ==> GenesisNet(h).w1[i] == Drawn(h, 1, i, 1024)
    ensures i < 512 ==> GenesisNet(h).b1[i] == Drawn(h, 2, i, 256)
    ensures i < 65536 ==> GenesisNet(h).w2[i] == Drawn(h, 3, i, 2048)
    ensures i < 128 ==> GenesisNet(h).b2[i] == Drawn(h, 4, i, 512)
    ensures i < 1280 ==> GenesisNet(h).w3[i] == Drawn(h, 5, i, 4096)
    ensures i < 10 ==> GenesisNet(h).b3[i] == Drawn(h, 6, i, 1024)
  {
    hide SeedQ, Drawn;
    if i < 401408 {
      SeedIsDrawn(h, 1, i, 1024);
      SeedIsDrawn(h, 2, i, 256);
      SeedIsDrawn(h, 3, i, 2048);
      SeedIsDrawn(h, 4, i, 512);
      SeedIsDrawn(h, 5, i, 4096);
      SeedIsDrawn(h, 6, i, 1024);
    }
  }

  lemma SeedIsDrawn(h: Host, block: u64, i: u64, scale: i32)
    requires 0 < scale <= 4096
    ensures SeedQ(h, GENESIS_SEED, block, i, scale) == Drawn(h, block, i, scale)
  {
    hide PutU64, GetU32;
    SeedLetters();
    var u := GetU32(h.hash(PutU64(GENESIS_SEED) + PutU64(block) + PutU64(i))[..4]);
    assert 0 <= u % (2 * scale) < 2 * scale;
  }

  lemma SeedLetters()
    ensures PutU64(GENESIS_SEED) == [50, 86, 82, 66, 72, 83, 69, 77]
  {
    hide LeBytes, LeValue;
    NoBytes();
    OneMoreByte(77, []);
    var s1: Bytes := [77] + [];
    OneMoreByte(69, s1);
    var s2 := [69] + s1;
    OneMoreByte(83, s2);
    var s3 := [83] + s2;
    OneMoreByte(72, s3);
    var s4 := [72] + s3;
    OneMoreByte(66, s4);
    var s5 := [66] + s4;
    OneMoreByte(82, s5);
    var s6 := [82] + s5;
    OneMoreByte(86, s6);
    var s7 := [86] + s6;
    OneMoreByte(50, s7);
    LeBytesOfValue([50] + s7);
    assert [50] + s7 == [50, 86, 82, 66, 72, 83, 69, 77];
  }

  lemma NoBytes()
    ensures LeValue([]) == 0
  {
  }

  lemma OneMoreByte(b: byte, s: Bytes)
    ensures LeValue([b] + s) == b + 256 * LeValue(s)
  {
    assert ([b] + s)[1..] == s;
  }

  /** A new brain: nothing counted, nothing reported, the first network's blob and its hash. */
  lemma NewBrain(h: Host)
    ensures var b := GenesisState(h);
      && b.epoch == b.height == b.stepsTotal == b.advances == 0 && b.report.loss == b.report.accuracy == 0
      && b.digest == h.hash(b.weights) && DecodeWeights(b.weights) == Some(GenesisNet(h))
  {
    hide EncodeWeights, DecodeWeights, GenesisNet;
    WeightsRoundTrip(GenesisNet(h), []);
    assert EncodeWeights(GenesisNet(h)) + [] == EncodeWeights(GenesisNet(h));
  }

  lemma NewLeg(h: LegHost, leg: LegId)
    ensures var b := FirstLeg(h, leg);
      && b.epoch == b.height == b.stepsTotal == b.advances == 0 && b.report == LegReport(0, 0)
      && b.digest == h.hash(b.weights) && DecodeLegWeights(b.weights) == Some(h.first(leg))
  {
    hide EncodeLegWeights, DecodeLegWeights;
    LegWeightsRoundTrip(h.first(leg), []);
    assert EncodeLegWeights(h.first(leg)) + [] == EncodeLegWeights(h.first(leg));
  }
}
