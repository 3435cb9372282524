/**
 Guardian-leg jobs as they stand on the wire (crates/mesh-ai/src/legs.rs): the text that is written, what a
 text is read as, and which names stand for which leg.
 */
module LegWire {
  import opened Machine
  import opened Text
  import opened LegJob
  import opened Utf8
  import opened Wire

  // ---------- names ----------

  /** A word in any mixture of small and capital letters. */
  ghost predicate Spells(s: Bytes, word: string) {
    |s| == |word| && forall i :: 0 <= i < |s| ==>
      'a' <= word[i] <= 'z' && (s[i] == word[i] as int || s[i] == word[i] as int - 32)
  }

  /** The names a leg goes by. */
  function Names(leg: LegId): set<string> {
    match leg
    case Security => {"security", "sec"}
    case Network => {"network", "net", "scale"}
    case Blocks => {"blocks", "block", "chain"}
    case Transpar => {"transpar", "transparency", "privacy"}
  }

  lemma SpelledIsLower(s: Bytes, word: string)
    ensures Letters(word) ==> (Spells(s, word) <==> LowerAll(s) == Ascii(word))
  {
    if Letters(word) && LowerAll(s) == Ascii(word) {
      forall i | 0 <= i < |s| ensures s[i] == word[i] as int || s[i] == word[i] as int - 32 {
        assert LowerAll(s)[i] == Ascii(word)[i];
      }
    }
  }

  ghost predicate Letters(word: string) { forall i :: 0 <= i < |word| ==> 'a' <= word[i] <= 'z' }

  lemma NamesAreLetters()
    ensures forall leg, w :: w in Names(leg) ==> Letters(w)
  {
  }

  /**
   White space, a name in any mixture of cases, white space: that is the leg of the name, and nothing else is
   a leg.
   */
  lemma LegNamesIff(lead: seq<Scalar>, mid: seq<Scalar>, trail: seq<Scalar>, leg: LegId)
    requires AllWhite(lead) && AllWhite(trail) && Trim(mid) && (mid == [] ==> trail == [])
    ensures ParseLeg(EncodedAll(lead + mid + trail)) == Some(leg)
      <==> exists w :: w in Names(leg) && Spells(EncodedAll(mid), w)
  {
    hide EncodedAll, White, Spells, TrimStart, TrimEnd, Names;
    TrimMeaning(lead, mid, trail);
    NamedLegIff(EncodedAll(lead + mid + trail), EncodedAll(mid), leg);
  }

  lemma NamedLegIff(s: Bytes, t: Bytes, leg: LegId)
    requires TrimEnd(TrimStart(s)) == t
    ensures ParseLeg(s) == Some(leg) <==> exists w :: w in Names(leg) && Spells(t, w)
  {
    hide LowerAll, TrimStart, TrimEnd, Spells, Ascii, Letters, Names;
    NamesAreLetters();
    forall w | w in Names(leg) ensures Spells(t, w) <==> LowerAll(t) == Ascii(w) {
      SpelledIsLower(t, w);
    }
    hide ParseLeg, Called;
    CalledIff(LowerAll(t), leg);
    ParsedIsCalled(s, LowerAll(t), leg);
    if ParseLeg(s) == Some(leg) {
      var w :| w in Names(leg) && LowerAll(t) == Ascii(w);
      assert Spells(t, w);
    }
  }

  lemma ParsedIsCalled(s: Bytes, lower: Bytes, leg: LegId)
    requires LowerAll(TrimEnd(TrimStart(s))) == lower
    ensures ParseLeg(s) == Some(leg) <==> Called(lower, leg)
  {
    hide LowerAll, TrimStart, TrimEnd, Ascii;
    CalledOnce(lower);
    var parsed := ParseLeg(s);
    assert parsed.Some? ==> Called(lower, parsed.value);
    assert Called(lower, leg) ==> parsed.Some?;
  }

  ghost predicate Called(lower: Bytes, leg: LegId) {
    match leg
    case Security => lower == Ascii("security") || lower == Ascii("sec")
    case Network => lower == Ascii("network") || lower == Ascii("net") || lower == Ascii("scale")
    case Blocks => lower == Ascii("blocks") || lower == Ascii("block") || lower == Ascii("chain")
    case Transpar => lower == Ascii("transpar") || lower == Ascii("transparency") || lower == Ascii("privacy")
  }

  lemma CalledIff(lower: Bytes, leg: LegId)
    ensures Called(lower, leg) <==> exists w :: w in Names(leg) && lower == Ascii(w)
  {
    hide Ascii;
    match leg
    case Security => assert "security" in Names(leg) && "sec" in Names(leg);
    case Network => assert "network" in Names(leg) && "net" in Names(leg) && "scale" in Names(leg);
    case Blocks => assert "blocks" in Names(leg) && "block" in Names(leg) && "chain" in Names(leg);
    case Transpar => assert "transpar" in Names(leg) && "transparency" in Names(leg) && "privacy" in Names(leg);
  }

  lemma CalledOnce(lower: Bytes)
    ensures forall a, b :: Called(lower, a) && Called(lower, b) ==> a == b
  {
    hide Called, Names, Ascii;
    NamesApart();
    forall a, b | Called(lower, a) && Called(lower, b) ensures a == b {
      CalledIff(lower, a);
      CalledIff(lower, b);
    }
  }

  lemma NamesApart()
    ensures forall a, b, v, w :: a != b && v in Names(a) && w in Names(b) ==> Ascii(v) != Ascii(w)
  {
    forall a, b, v, w | a != b && v in Names(a) && w in Names(b) ensures Ascii(v) != Ascii(w) {
      if |v| == |w| {
        assert Ascii(v)[0] != Ascii(w)[0];
      }
    }
  }

  // ---------- jobs ----------

  /** The fields are the last numbers given, by default 0, 32, 50, 64 and 0; the leg is the last one named. */
  ghost predicate LegReadAs(parts: seq<Bytes>, f: LegFields) {
    && LastSaid(parts, Ascii("epoch"), 0xFFFF_FFFF_FFFF_FFFF, 0, f.epoch)
    && LastSaid(parts, Ascii("steps"), 0xFFFF_FFFF, 32, f.steps)
    && LastSaid(parts, Ascii("lr_milli"), 0xFFFF_FFFF, 50, f.lrMilli)
    && LastSaid(parts, Ascii("samples"), 0xFFFF_FFFF, 64, f.samples)
    && LastSaid(parts, Ascii("offset"), 0xFFFF_FFFF, 0, f.offset)
    && exists v :: LastGiven(parts, Ascii("leg"), v) && f.leg == ParseLeg(v)
  }

  lemma ReadOneLeg(parts: seq<Bytes>, part: Bytes, f: LegFields)
    requires LegReadAs(parts, f)
    ensures LegReadAs(parts + [part], WithLegField(f, part))
  {
    hide LastSaid, LastGiven, SplitOnce, ParseUnsigned, Ascii, ParseLeg;
    KeyBytes();
    var f' := WithLegField(f, part);
    NumberStep(parts, part, Ascii("epoch"), 0xFFFF_FFFF_FFFF_FFFF, 0, f.epoch, f'.epoch);
    NumberStep(parts, part, Ascii("steps"), 0xFFFF_FFFF, 32, f.steps, f'.steps);
    NumberStep(parts, part, Ascii("lr_milli"), 0xFFFF_FFFF, 50, f.lrMilli, f'.lrMilli);
    NumberStep(parts, part, Ascii("samples"), 0xFFFF_FFFF, 64, f.samples, f'.samples);
    NumberStep(parts, part, Ascii("offset"), 0xFFFF_FFFF, 0, f.offset, f'.offset);
    var v :| LastGiven(parts, Ascii("leg"), v) && f.leg == ParseLeg(v);
    var kv := SplitOnce(part, 61);
    TextStep(parts, part, Ascii("leg"), v, if kv.Some? && kv.value.0 == Ascii("leg") then kv.value.1 else v);
  }

  lemma {:induction false} CollectLegMeaning(parts: seq<Bytes>, n: nat)
    requires n <= |parts|
    ensures LegReadAs(parts[..n], CollectLeg(parts, n))
  {
    hide LegReadAs, WithLegField;
    if n == 0 {
      NoLegRead(parts[..0]);
    } else {
      CollectLegMeaning(parts, n - 1);
      ReadOneLeg(parts[..n - 1], parts[n - 1], CollectLeg(parts, n - 1));
      assert parts[..n] == parts[..n - 1] + [parts[n - 1]];
    }
  }

  lemma NoLegRead(parts: seq<Bytes>)
    requires parts == []
    ensures LegReadAs(parts, LegDefaults())
  {
    hide LastSaid, LastGiven, Ascii, ParseLeg;
    NothingSaid(Ascii("epoch"), 0xFFFF_FFFF_FFFF_FFFF, 0);
    NothingSaid(Ascii("steps"), 0xFFFF_FFFF, 32);
    NothingSaid(Ascii("lr_milli"), 0xFFFF_FFFF, 50);
    NothingSaid(Ascii("samples"), 0xFFFF_FFFF, 64);
    NothingSaid(Ascii("offset"), 0xFFFF_FFFF, 0);
    NothingSaid(Ascii("leg"), 0, 0);
    NoLegNamed();
  }

  lemma NoLegNamed()
    ensures ParseLeg([]) == None
  {
    hide Ascii;
    NothingLeft();
  }

  lemma LegPrefixIs()
    ensures LegPrefix() == Ascii("mesh-legtrain:v1:")
  {
  }

  /** The leg and the epoch and offset are kept, the other numbers are the nearest allowed. */
  ghost predicate LegClamped(f: LegFields, s: LegSpec) {
    && f.leg == Some(s.leg) && s.epoch == f.epoch && s.offset == f.offset
    && Nearest(1, 256, f.steps, s.steps)
    && Nearest(1, 500, f.lrMilli, s.lrMilli)
    && Nearest(8, 256, f.samples, s.samples)
  }

  /**
   A text is a leg job just when it is UTF-8, starts with mesh-legtrain:v1: and the last leg it names is one;
   and what it is read as are the last fields given in its parts after the second.
   */
  lemma LegJobMeaning(input: Bytes) returns (f: LegFields)
    ensures LegReadAs(if |SplitOn(input, 58)| < 2 then [] else SplitOn(input, 58)[2..], f)
    ensures ParseLegJob(input).Some? <==> ValidUtf8(input) && Ascii("mesh-legtrain:v1:") <= input && f.leg.Some?
    ensures ParseLegJob(input).Some? ==> LegClamped(f, ParseLegJob(input).value)
  {
    hide ValidUtf8, SplitOn, Ascii, LegReadAs, CollectLeg, LegPrefix;
    LegPrefixIs();
    var parts := AfterTwo(SplitOn(input, COLON));
    f := CollectLeg(parts, |parts|);
    CollectLegMeaning(parts, |parts|);
    assert parts[..|parts|] == parts;
  }

  /** The text of a leg job, character by character. */
  lemma LegJobText(leg: LegId, epoch: u64, steps: u32, lrMilli: u32, samples: u32, offset: u32)
    ensures EncodeLegJob(leg, epoch, steps, lrMilli, samples, offset)
         == Ascii("mesh-legtrain:v1:leg=")
            + (match leg case Security => Ascii("security") case Network => Ascii("network")
                         case Blocks => Ascii("blocks") case Transpar => Ascii("transpar"))
            + Ascii(":epoch=") + Decimal(epoch) + Ascii(":steps=") + Decimal(steps)
            + Ascii(":lr_milli=") + Decimal(lrMilli) + Ascii(":samples=") + Decimal(samples)
            + Ascii(":offset=") + Decimal(offset)
  {
    hide Ascii, Decimal, Name;
    LegHead();
    KeyLiterals();
    NameIs(leg);
    var p := LegParts(leg, epoch, steps, lrMilli, samples, offset);
    JoinEight(p, COLON);
    EightFields(Ascii("mesh-legtrain"), Ascii("v1"), Ascii("leg"), Name(leg), Ascii("epoch"), Decimal(epoch),
                Ascii("steps"), Decimal(steps), Ascii("lr_milli"), Decimal(lrMilli), Ascii("samples"),
                Decimal(samples), Ascii("offset"), Decimal(offset));
  }

  lemma NameIs(leg: LegId)
    ensures Name(leg) == match leg case Security => Ascii("security") case Network => Ascii("network")
                                   case Blocks => Ascii("blocks") case Transpar => Ascii("transpar")
  {
    hide Ascii;
  }

  lemma LegHead()
    ensures Ascii("mesh-legtrain:v1:leg=") == Ascii("mesh-legtrain") + [58] + Ascii("v1") + [58] + Ascii("leg") + [61]
  {
  }

  lemma JoinEight(p: seq<Bytes>, sep: byte)
    requires |p| == 8
    ensures JoinWith(p, sep)
         == p[0] + [sep] + (p[1] + [sep] + (p[2] + [sep] + (p[3] + [sep] + (p[4] + [sep]
            + (p[5] + [sep] + (p[6] + [sep] + p[7]))))))
  {
    JoinLast(p, 6, sep);
    JoinLast(p, 5, sep);
    JoinLast(p, 4, sep);
    JoinLast(p, 3, sep);
    JoinLast(p, 2, sep);
    JoinLast(p, 1, sep);
    JoinLast(p, 0, sep);
    assert p[0..] == p;
  }

  lemma EightFields(t: Bytes, u: Bytes, k1: Bytes, v1: Bytes, k2: Bytes, v2: Bytes, k3: Bytes, v3: Bytes, k4: Bytes,
                    v4: Bytes, k5: Bytes, v5: Bytes, k6: Bytes, v6: Bytes)
    ensures t + [58] + (u + [58] + (Field(k1, v1) + [58] + (Field(k2, v2) + [58] + (Field(k3, v3) + [58]
            + (Field(k4, v4) + [58] + (Field(k5, v5) + [58] + Field(k6, v6)))))))
         == (t + [58] + u + [58] + k1 + [61]) + v1 + ([58] + k2 + [61]) + v2 + ([58] + k3 + [61]) + v3
            + ([58] + k4 + [61]) + v4 + ([58] + k5 + [61]) + v5 + ([58] + k6 + [61]) + v6
  {
  }
}
