/**
 Guardian-leg jobs (crates/mesh-ai/src/legs.rs): four named legs, the text encoding of their
 jobs and its parser.
 */
module LegJob {
  import opened Machine
  import opened Text

  datatype LegId = Security | Network | Blocks | Transpar

  /** `lr` is `lrMilli / 1000` in the source; the integer determines it. */
  datatype LegSpec = LegSpec(leg: LegId, epoch: u64, steps: u32, lrMilli: u32, samples: u32, offset: u32)

  datatype LegFields = LegFields(leg: Option<LegId>, epoch: u64, steps: u32, lrMilli: u32, samples: u32, offset: u32)

  function Name(leg: LegId): Bytes {
    match leg
    case Security => Ascii("security")
    case Network => Ascii("network")
    case Blocks => Ascii("blocks")
    case Transpar => Ascii("transpar")
  }

  // ---------- names, as a user may have written them ----------

  /** Bytes of a Unicode white-space character at the front of UTF-8 text, 0 if there is none. */
  function SpaceWidth(s: Bytes): (n: nat)
    ensures n <= |s|
  {
    if |s| >= 1 && (9 <= s[0] <= 13 || s[0] == 32) then 1
    else if |s| >= 2 && s[0] == 0xC2 && (s[1] == 0x85 || s[1] == 0xA0) then 2
    else if |s| >= 3 && IsWideSpace(s[0], s[1], s[2]) then 3
    else 0
  }

  predicate IsWideSpace(a: byte, b: byte, c: byte) {
    || (a == 0xE1 && b == 0x9A && c == 0x80)
    || (a == 0xE2 && b == 0x80 && (0x80 <= c <= 0x8A || c == 0xA8 || c == 0xA9 || c == 0xAF))
    || (a == 0xE2 && b == 0x81 && c == 0x9F)
    || (a == 0xE3 && b == 0x80 && c == 0x80)
  }

  function TrimStart(s: Bytes): Bytes
    decreases |s|
  {
    if SpaceWidth(s) == 0 then s else TrimStart(s[SpaceWidth(s)..])
  }

  /** The same at the end of the text. */
  function SpaceWidthAtEnd(s: Bytes): (n: nat)
    ensures n <= |s|
  {
    if |s| >= 1 && (9 <= s[|s| - 1] <= 13 || s[|s| - 1] == 32) then 1
    else if |s| >= 2 && s[|s| - 2] == 0xC2 && (s[|s| - 1] == 0x85 || s[|s| - 1] == 0xA0) then 2
    else if |s| >= 3 && IsWideSpace(s[|s| - 3], s[|s| - 2], s[|s| - 1]) then 3
    else 0
  }

  function TrimEnd(s: Bytes): Bytes
    decreases |s|
  {
    if SpaceWidthAtEnd(s) == 0 then s else TrimEnd(s[..|s| - SpaceWidthAtEnd(s)])
  }

  function Lower(b: byte): byte { if 65 <= b <= 90 then b + 32 else b }

  function LowerAll(s: Bytes): (r: Bytes)
    ensures |r| == |s|
  {
    seq(|s|, i requires 0 <= i < |s| => Lower(s[i]))
  }

  /** `LegId::parse`: trimmed, case-insensitive, with aliases. */
  function ParseLeg(s: Bytes): Option<LegId> {
    var t := LowerAll(TrimEnd(TrimStart(s)));
    if t == Ascii("security") || t == Ascii("sec") then Some(Security)
    else if t == Ascii("network") || t == Ascii("net") || t == Ascii("scale") then Some(Network)
    else if t == Ascii("blocks") || t == Ascii("block") || t == Ascii("chain") then Some(Blocks)
    else if t == Ascii("transpar") || t == Ascii("transparency") || t == Ascii("privacy") then Some(Transpar)
    else None
  }

  // ---------- jobs ----------

  function LegDefaults(): LegFields { LegFields(None, 0, 32, 50, 64, 0) }

  function LegTag(): Bytes { Ascii("mesh-legtrain") }

  function V1Tag(): Bytes { Ascii("v1") }

  function LegPrefix(): Bytes { LegTag() + [COLON] + V1Tag() + [COLON] }

  function WithLegField(f: LegFields, part: Bytes): LegFields {
    match SplitOnce(part, EQUALS)
    case None => f
    case Some(kv) =>
      var (k, v) := kv;
      if k == Ascii("leg") then f.(leg := ParseLeg(v))
      else if k == Ascii("epoch") then f.(epoch := U64Or(v, f.epoch))
      else if k == Ascii("steps") then f.(steps := U32Or(v, f.steps))
      else if k == Ascii("lr_milli") then f.(lrMilli := U32Or(v, f.lrMilli))
      else if k == Ascii("samples") then f.(samples := U32Or(v, f.samples))
      else if k == Ascii("offset") then f.(offset := U32Or(v, f.offset))
      else f
  }

  function CollectLeg(parts: seq<Bytes>, n: nat): LegFields
    requires n <= |parts|
  {
    if n == 0 then LegDefaults() else WithLegField(CollectLeg(parts, n - 1), parts[n - 1])
  }

  function NormaliseLeg(leg: LegId, epoch: u64, steps: u32, lrMilli: u32, samples: u32, offset: u32): LegSpec {
    LegSpec(leg, epoch, Clamp(steps, 1, 256), Clamp(lrMilli, 1, 500), Clamp(samples, 8, 256), offset)
  }

  function FinishLeg(f: LegFields): Option<LegSpec> {
    match f.leg
    case None => None
    case Some(leg) => Some(NormaliseLeg(leg, f.epoch, f.steps, f.lrMilli, f.samples, f.offset))
  }

  function ParseLegJob(input: Bytes): Option<LegSpec> {
    if !ValidUtf8(input) || !(LegPrefix() <= input) then None
    else
      var parts := AfterTwo(SplitOn(input, COLON));
      FinishLeg(CollectLeg(parts, |parts|))
  }

  method ParseLegLoop(input: Bytes) returns (r: Option<LegSpec>)
    ensures r == ParseLegJob(input)
  {
    hide ValidUtf8, SplitOn, SplitOnce, Ascii, U64Or, U32Or, LegPrefix, ParseLeg;
    if !ValidUtf8(input) || !(LegPrefix() <= input) {
      return None;
    }
    var parts := AfterTwo(SplitOn(input, COLON));
    var leg: Option<LegId> := None;
    var epoch: u64, steps: u32, lrMilli: u32, samples: u32, offset: u32 := 0, 32, 50, 64, 0;
    for n := 0 to |parts|
      invariant LegFields(leg, epoch, steps, lrMilli, samples, offset) == CollectLeg(parts, n)
    {
      match SplitOnce(parts[n], EQUALS)
      case None =>
      case Some(kv) =>
        var (k, v) := kv;
        if k == Ascii("leg") {
          leg := ParseLeg(v);
        } else if k == Ascii("epoch") {
          epoch := U64Or(v, epoch);
        } else if k == Ascii("steps") {
          steps := U32Or(v, steps);
        } else if k == Ascii("lr_milli") {
          lrMilli := U32Or(v, lrMilli);
        } else if k == Ascii("samples") {
          samples := U32Or(v, samples);
        } else if k == Ascii("offset") {
          offset := U32Or(v, offset);
        }
    }
    if leg.None? {
      return None;
    }
    steps := Clamp(steps, 1, 256);
    lrMilli := Clamp(lrMilli, 1, 500);
    samples := Clamp(samples, 8, 256);
    r := Some(LegSpec(leg.value, epoch, steps, lrMilli, samples, offset));
  }

  function LegParts(leg: LegId, epoch: u64, steps: u32, lrMilli: u32, samples: u32, offset: u32): (p: seq<Bytes>)
    ensures |p| == 8
  {
    [LegTag(), V1Tag(),
     Field(Ascii("leg"), Name(leg)),
     Field(Ascii("epoch"), Decimal(epoch)),
     Field(Ascii("steps"), Decimal(steps)),
     Field(Ascii("lr_milli"), Decimal(lrMilli)),
     Field(Ascii("samples"), Decimal(samples)),
     Field(Ascii("offset"), Decimal(offset))]
  }

  function EncodeLegJob(leg: LegId, epoch: u64, steps: u32, lrMilli: u32, samples: u32, offset: u32): Bytes {
    JoinWith(LegParts(leg, epoch, steps, lrMilli, samples, offset), COLON)
  }

  // ---------- the round trip ----------

  lemma LegLiteralsPlain(leg: LegId)
    ensures Plain(LegTag()) && Plain(V1Tag()) && Plain(Ascii("leg")) && Plain(Name(leg))
  {
    hide Plain, Ascii;
    assert PlainText("mesh-legtrain", 7);
    PlainTextIsPlain("mesh-legtrain", 13);
    PlainTextIsPlain("v1", 2);
    PlainTextIsPlain("leg", 3);
    PlainTextIsPlain("security", 8);
    PlainTextIsPlain("network", 7);
    PlainTextIsPlain("blocks", 6);
    PlainTextIsPlain("transpar", 8);
  }

  /** Text of lower-case letters is its own trimmed lower-case form. */
  lemma LettersUntouched(s: Bytes)
    requires |s| >= 1 && forall i :: 0 <= i < |s| ==> 97 <= s[i] <= 122
    ensures LowerAll(TrimEnd(TrimStart(s))) == s
  {
    hide LowerAll, TrimEnd, TrimStart;
    NothingToTrim(s);
    NothingToLower(s);
  }

  lemma NothingToTrim(s: Bytes)
    requires |s| >= 1 && 97 <= s[0] <= 122 && 97 <= s[|s| - 1] <= 122
    ensures TrimStart(s) == s && TrimEnd(s) == s
  {
  }

  lemma NothingToLower(s: Bytes)
    requires forall i :: 0 <= i < |s| ==> 97 <= s[i] <= 122
    ensures LowerAll(s) == s
  {
  }

  lemma NameIsLetters(leg: LegId)
    ensures |Name(leg)| >= 1 && forall i :: 0 <= i < |Name(leg)| ==> 97 <= Name(leg)[i] <= 122
  {
    hide Ascii;
    LettersOf("security");
    LettersOf("network");
    LettersOf("blocks");
    LettersOf("transpar");
  }

  lemma LettersOf(s: string)
    requires forall i :: 0 <= i < |s| ==> 'a' <= s[i] <= 'z'
    ensures forall i :: 0 <= i < |s| ==> 97 <= Ascii(s)[i] <= 122
  {
  }

  lemma NameRoundTrip(leg: LegId)
    ensures ParseLeg(Name(leg)) == Some(leg)
  {
    hide LowerAll, TrimEnd, TrimStart;
    NameIsLetters(leg);
    LettersUntouched(Name(leg));
    NamesDiffer();
  }

  /** Among literals of the same length, the first letter tells names and aliases apart. */
  lemma NamesDiffer()
    ensures Ascii("security") != Ascii("transpar")
    ensures Ascii("network") != Ascii("privacy")
  {
    assert Ascii("security")[0] == 115 && Ascii("transpar")[0] == 116;
    assert Ascii("network")[0] == 110 && Ascii("privacy")[0] == 112;
  }

  lemma LegNumberFields(f: LegFields, e: u64, n: u32)
    ensures WithLegField(f, Field(Ascii("epoch"), Decimal(e))) == f.(epoch := e)
    ensures WithLegField(f, Field(Ascii("steps"), Decimal(n))) == f.(steps := n)
    ensures WithLegField(f, Field(Ascii("lr_milli"), Decimal(n))) == f.(lrMilli := n)
    ensures WithLegField(f, Field(Ascii("samples"), Decimal(n))) == f.(samples := n)
    ensures WithLegField(f, Field(Ascii("offset"), Decimal(n))) == f.(offset := n)
  {
    hide Field, Ascii, Decimal, Plain, PartOk;
    NumberKeysPlain();
    LegKeysDiffer();
    NumberField(Ascii("epoch"), e);
    NumberField(Ascii("steps"), n);
    NumberField(Ascii("lr_milli"), n);
    NumberField(Ascii("samples"), n);
    NumberField(Ascii("offset"), n);
    DecimalRoundTrip(e, MAX_U64);
    DecimalRoundTrip(n, MAX_U32);
  }

  lemma LegKeysDiffer()
    ensures Ascii("epoch") != Ascii("steps")
  {
    assert Ascii("epoch")[0] == 101 && Ascii("steps")[0] == 115;
  }

  lemma LegNameField(f: LegFields, leg: LegId)
    ensures WithLegField(f, Field(Ascii("leg"), Name(leg))) == f.(leg := Some(leg))
  {
    hide Field, Ascii, Name, Plain, PartOk, ParseLeg;
    LegLiteralsPlain(leg);
    FieldIsPart(Ascii("leg"), Name(leg));
    NameRoundTrip(leg);
  }

  lemma CollectEncodedLeg(leg: LegId, epoch: u64, steps: u32, lrMilli: u32, samples: u32, offset: u32)
    ensures CollectLeg(LegParts(leg, epoch, steps, lrMilli, samples, offset)[2..], 6)
         == LegFields(Some(leg), epoch, steps, lrMilli, samples, offset)
  {
    hide Field, Ascii, Decimal, Name, LegTag, V1Tag, WithLegField;
    var parts := LegParts(leg, epoch, steps, lrMilli, samples, offset)[2..];
    var f0 := LegDefaults();
    LegNameField(f0, leg);
    var f1 := f0.(leg := Some(leg));
    LegNumberFields(f1, epoch, 0);
    var f2 := f1.(epoch := epoch);
    LegNumberFields(f2, 0, steps);
    var f3 := f2.(steps := steps);
    LegNumberFields(f3, 0, lrMilli);
    var f4 := f3.(lrMilli := lrMilli);
    LegNumberFields(f4, 0, samples);
    var f5 := f4.(samples := samples);
    LegNumberFields(f5, 0, offset);
    assert CollectLeg(parts, 1) == f1;
    assert CollectLeg(parts, 2) == f2;
    assert CollectLeg(parts, 3) == f3;
    assert CollectLeg(parts, 4) == f4;
    assert CollectLeg(parts, 5) == f5;
  }

  lemma LegPartsOk(leg: LegId, epoch: u64, steps: u32, lrMilli: u32, samples: u32, offset: u32)
    ensures forall i :: 0 <= i < 8 ==> PartOk(LegParts(leg, epoch, steps, lrMilli, samples, offset)[i])
  {
    hide Field, Ascii, Decimal, Name, LegTag, V1Tag;
    LegLiteralsPlain(leg);
    NumberKeysPlain();
    FieldIsPart(Ascii("leg"), Name(leg));
    NumberField(Ascii("epoch"), epoch);
    NumberField(Ascii("steps"), steps);
    NumberField(Ascii("lr_milli"), lrMilli);
    NumberField(Ascii("samples"), samples);
    NumberField(Ascii("offset"), offset);
  }

  /** The leg and the epoch survive the wire unchanged, the rest comes back normalised. */
  lemma LegJobRoundTrip(leg: LegId, epoch: u64, steps: u32, lrMilli: u32, samples: u32, offset: u32)
    ensures ParseLegJob(EncodeLegJob(leg, epoch, steps, lrMilli, samples, offset))
         == Some(NormaliseLeg(leg, epoch, steps, lrMilli, samples, offset))
  {
    hide Field, Ascii, Decimal, Name, LegTag, V1Tag, CollectLeg, WithLegField, LegParts;
    var parts := LegParts(leg, epoch, steps, lrMilli, samples, offset);
    LegPartsOk(leg, epoch, steps, lrMilli, samples, offset);
    SplitJoined(parts, COLON);
    JoinedIsAscii(parts);
    AsciiIsUtf8(JoinWith(parts, COLON));
    LegJobStartsWithPrefix(leg, epoch, steps, lrMilli, samples, offset);
    CollectEncodedLeg(leg, epoch, steps, lrMilli, samples, offset);
  }

  lemma LegJobStartsWithPrefix(leg: LegId, epoch: u64, steps: u32, lrMilli: u32, samples: u32, offset: u32)
    ensures LegPrefix() <= EncodeLegJob(leg, epoch, steps, lrMilli, samples, offset)
  {
    hide LegTag, V1Tag, Field, Decimal, Ascii, Name;
    var parts := LegParts(leg, epoch, steps, lrMilli, samples, offset);
    assert JoinWith(parts, COLON) == parts[0] + [COLON] + (parts[1] + [COLON] + JoinWith(parts[1..][1..], COLON));
  }

  /** Parsing, encoding and parsing again is parsing. */
  lemma LegParseEncodeParse(input: Bytes)
    requires ParseLegJob(input).Some?
    ensures var s := ParseLegJob(input).value;
      ParseLegJob(EncodeLegJob(s.leg, s.epoch, s.steps, s.lrMilli, s.samples, s.offset)) == Some(s)
  {
    hide ValidUtf8, SplitOn, CollectLeg, EncodeLegJob;
    var s := ParseLegJob(input).value;
    LegJobRoundTrip(s.leg, s.epoch, s.steps, s.lrMilli, s.samples, s.offset);
  }
}
