/**
 Job messages of the v2 shared brain (crates/mesh-ai-v2/src/job.rs): the text encoding, the
 tolerant parser with its defaults, and the normalisation every accepted job goes through.
 */
module Job {
  import opened Machine
  import opened Text

  const SAMPLE_COUNT: nat := 4096

  datatype JobError = BadInput | BadDataset | BadWeights

  datatype Outcome<+T> = Ok(value: T) | Err(error: JobError)

  datatype Spec = Spec(epoch: u64, steps: u32, lrMilli: u32, samples: u32, offset: u32)

  /** What the field loop has collected so far. */
  datatype Fields = Fields(epoch: u64, steps: u32, lrMilli: u32, samples: u32, offset: u32,
                           arch: Bytes, dtype: Bytes)

  function Defaults(): Fields { Fields(0, 64, 50, 256, 0, [], []) }

  function Shared(): Bytes { Ascii("mesh-mltrain-shared") }

  function VersionTag(): Bytes { Ascii("v2") }

  function Mlp512(): Bytes { Ascii("mlp512") }

  function Q16Name(): Bytes { Ascii("q16") }

  function Prefix(): Bytes { Shared() + [COLON] + VersionTag() + [COLON] }

  /** One `key=value` part; unknown keys, parts without `=` and unparsable numbers change nothing. */
  function WithField(f: Fields, part: Bytes): Fields {
    match SplitOnce(part, EQUALS)
    case None => f
    case Some(kv) =>
      var (k, v) := kv;
      if k == Ascii("epoch") then f.(epoch := U64Or(v, f.epoch))
      else if k == Ascii("steps") then f.(steps := U32Or(v, f.steps))
      else if k == Ascii("lr_milli") then f.(lrMilli := U32Or(v, f.lrMilli))
      else if k == Ascii("samples") then f.(samples := U32Or(v, f.samples))
      else if k == Ascii("offset") then f.(offset := U32Or(v, f.offset))
      else if k == Ascii("arch") then f.(arch := v)
      else if k == Ascii("dtype") then f.(dtype := v)
      else f
  }

  /** The fields after the first n parts. */
  function Collect(parts: seq<Bytes>, n: nat): Fields
    requires n <= |parts|
  {
    if n == 0 then Defaults() else WithField(Collect(parts, n - 1), parts[n - 1])
  }

  /** Clamps applied to every job; the sample window is shortened to end at the last sample. */
  function Normalise(epoch: u64, steps: u32, lrMilli: u32, samples: u32, offset: u32): Spec {
    var off := Min(offset, SAMPLE_COUNT - 16);
    var window := Clamp(samples, 16, 2048);
    Spec(epoch, Clamp(steps, 1, 1024), Clamp(lrMilli, 1, 500),
         if off + window > SAMPLE_COUNT then Max(SAMPLE_COUNT - off, 16) else window,
         off)
  }

  function Finish(f: Fields): Outcome<Spec> {
    if f.arch != [] && f.arch != Mlp512() then Err(BadInput)
    else if f.dtype != [] && f.dtype != Q16Name() then Err(BadInput)
    else Ok(Normalise(f.epoch, f.steps, f.lrMilli, f.samples, f.offset))
  }

  function ParseJob(input: Bytes): Outcome<Spec> {
    if !ValidUtf8(input) || !(Prefix() <= input) then Err(BadInput)
    else
      var parts := AfterTwo(SplitOn(input, COLON));
      Finish(Collect(parts, |parts|))
  }

  /** The parser's loop. */
  method Parse(input: Bytes) returns (r: Outcome<Spec>)
    ensures r == ParseJob(input)
  {
    hide ValidUtf8, SplitOn, SplitOnce, Ascii, U64Or, U32Or, Prefix, Mlp512, Q16Name;
    if !ValidUtf8(input) || !(Prefix() <= input) {
      return Err(BadInput);
    }
    var parts := AfterTwo(SplitOn(input, COLON));
    var epoch: u64, steps: u32, lrMilli: u32, samples: u32, offset: u32 := 0, 64, 50, 256, 0;
    var arch: Bytes, dtype: Bytes := [], [];
    for n := 0 to |parts|
      invariant Fields(epoch, steps, lrMilli, samples, offset, arch, dtype) == Collect(parts, n)
    {
      match SplitOnce(parts[n], EQUALS)
      case None =>
      case Some(kv) =>
        var (k, v) := kv;
        if k == Ascii("epoch") {
          epoch := U64Or(v, epoch);
        } else if k == Ascii("steps") {
          steps := U32Or(v, steps);
        } else if k == Ascii("lr_milli") {
          lrMilli := U32Or(v, lrMilli);
        } else if k == Ascii("samples") {
          samples := U32Or(v, samples);
        } else if k == Ascii("offset") {
          offset := U32Or(v, offset);
        } else if k == Ascii("arch") {
          arch := v;
        } else if k == Ascii("dtype") {
          dtype := v;
        }
    }
    if arch != [] && arch != Mlp512() {
      return Err(BadInput);
    }
    if dtype != [] && dtype != Q16Name() {
      return Err(BadInput);
    }
    steps := Clamp(steps, 1, 1024);
    lrMilli := Clamp(lrMilli, 1, 500);
    samples := Clamp(samples, 16, 2048);
    offset := Min(offset, 4096 - 16);
    if offset + samples > 4096 {
      samples := Max(4096 - offset, 16);
    }
    r := Ok(Spec(epoch, steps, lrMilli, samples, offset));
  }

  /** A job naming any architecture and number format. */
  function JobParts(s: Spec, arch: Bytes, dtype: Bytes): (p: seq<Bytes>)
    ensures |p| == 9
  {
    [Shared(), VersionTag(),
     Field(Ascii("epoch"), Decimal(s.epoch)),
     Field(Ascii("steps"), Decimal(s.steps)),
     Field(Ascii("lr_milli"), Decimal(s.lrMilli)),
     Field(Ascii("samples"), Decimal(s.samples)),
     Field(Ascii("offset"), Decimal(s.offset)),
     Field(Ascii("arch"), arch),
     Field(Ascii("dtype"), dtype)]
  }

  function EncodeNamed(s: Spec, arch: Bytes, dtype: Bytes): Bytes {
    JoinWith(JobParts(s, arch, dtype), COLON)
  }

  function EncodeJob(epoch: u64, steps: u32, lrMilli: u32, samples: u32, offset: u32): Bytes {
    EncodeNamed(Spec(epoch, steps, lrMilli, samples, offset), Mlp512(), Q16Name())
  }

  function Encoded(s: Spec): Bytes {
    EncodeJob(s.epoch, s.steps, s.lrMilli, s.samples, s.offset)
  }

  // ---------- what the parser promises ----------

  /** Everything an accepted job can ask for; its sample window lies inside the dataset. */
  predicate Normal(s: Spec) {
    && 1 <= s.steps <= 1024
    && 1 <= s.lrMilli <= 500
    && 16 <= s.samples <= 2048
    && s.offset + s.samples <= SAMPLE_COUNT
  }

  lemma AcceptedIsNormal(input: Bytes)
    requires ParseJob(input).Ok?
    ensures Normal(ParseJob(input).value)
  {
    hide ValidUtf8, SplitOn, Collect;
  }

  /** Normalising touches nothing that is already normal. */
  lemma NormaliseIdempotent(s: Spec)
    requires Normal(s)
    ensures Normalise(s.epoch, s.steps, s.lrMilli, s.samples, s.offset) == s
  {
  }

  // ---------- the wire round trip ----------

  lemma LiteralsArePlain()
    ensures Plain(Shared()) && Plain(VersionTag()) && Plain(Mlp512()) && Plain(Q16Name())
    ensures Plain(Ascii("epoch")) && Plain(Ascii("steps")) && Plain(Ascii("lr_milli"))
    ensures Plain(Ascii("samples")) && Plain(Ascii("offset")) && Plain(Ascii("arch")) && Plain(Ascii("dtype"))
  {
    hide Plain, Ascii;
    assert PlainText("mesh-mltrain-shared", 7);
    assert PlainText("mesh-mltrain-shared", 13);
    PlainTextIsPlain("mesh-mltrain-shared", 19);
    PlainTextIsPlain("v2", 2);
    PlainTextIsPlain("mlp512", 6);
    PlainTextIsPlain("q16", 3);
    NumberKeysPlain();
    PlainTextIsPlain("arch", 4);
    PlainTextIsPlain("dtype", 5);
  }

  lemma JobPartsOk(s: Spec, arch: Bytes, dtype: Bytes)
    requires Plain(arch) && Plain(dtype)
    ensures forall i :: 0 <= i < 9 ==> PartOk(JobParts(s, arch, dtype)[i])
  {
    hide Field, Ascii, Decimal, Mlp512, Q16Name, Shared, VersionTag;
    LiteralsArePlain();
    NumberField(Ascii("epoch"), s.epoch);
    NumberField(Ascii("steps"), s.steps);
    NumberField(Ascii("lr_milli"), s.lrMilli);
    NumberField(Ascii("samples"), s.samples);
    NumberField(Ascii("offset"), s.offset);
    FieldIsPart(Ascii("arch"), arch);
    FieldIsPart(Ascii("dtype"), dtype);
  }

  lemma JobStartsWithPrefix(s: Spec, arch: Bytes, dtype: Bytes)
    ensures Prefix() <= EncodeNamed(s, arch, dtype)
  {
    hide Shared, VersionTag, Field, Decimal, Ascii;
    var parts := JobParts(s, arch, dtype);
    assert JoinWith(parts, COLON) == parts[0] + [COLON] + (parts[1] + [COLON] + JoinWith(parts[1..][1..], COLON));
  }

  /** The three keys of equal length differ in their first letter. */
  lemma KeysDiffer()
    ensures Ascii("epoch") != Ascii("steps") && Ascii("epoch") != Ascii("dtype") && Ascii("steps") != Ascii("dtype")
  {
    assert Ascii("epoch")[0] == 101 && Ascii("steps")[0] == 115 && Ascii("dtype")[0] == 100;
  }

  lemma NumberFields(f: Fields, e: u64, n: u32)
    ensures WithField(f, Field(Ascii("epoch"), Decimal(e))) == f.(epoch := e)
    ensures WithField(f, Field(Ascii("steps"), Decimal(n))) == f.(steps := n)
    ensures WithField(f, Field(Ascii("lr_milli"), Decimal(n))) == f.(lrMilli := n)
    ensures WithField(f, Field(Ascii("samples"), Decimal(n))) == f.(samples := n)
    ensures WithField(f, Field(Ascii("offset"), Decimal(n))) == f.(offset := n)
  {
    hide Field, Ascii, Decimal, Plain, PartOk;
    LiteralsArePlain();
    KeysDiffer();
    NumberField(Ascii("epoch"), e);
    NumberField(Ascii("steps"), n);
    NumberField(Ascii("lr_milli"), n);
    NumberField(Ascii("samples"), n);
    NumberField(Ascii("offset"), n);
    DecimalRoundTrip(e, MAX_U64);
    DecimalRoundTrip(n, MAX_U32);
  }

  lemma NameFields(f: Fields, name: Bytes)
    requires Plain(name)
    ensures WithField(f, Field(Ascii("arch"), name)) == f.(arch := name)
    ensures WithField(f, Field(Ascii("dtype"), name)) == f.(dtype := name)
  {
    hide Field, Ascii, Mlp512, Q16Name, Plain, PartOk;
    LiteralsArePlain();
    KeysDiffer();
    FieldIsPart(Ascii("arch"), name);
    FieldIsPart(Ascii("dtype"), name);
  }

  /** The loop reads back the seven fields in order. */
  lemma CollectEncoded(s: Spec, arch: Bytes, dtype: Bytes)
    requires Plain(arch) && Plain(dtype)
    ensures Collect(JobParts(s, arch, dtype)[2..], 7)
         == Fields(s.epoch, s.steps, s.lrMilli, s.samples, s.offset, arch, dtype)
  {
    hide Field, Ascii, Decimal, Mlp512, Q16Name, Shared, VersionTag, WithField, Plain;
    var parts := JobParts(s, arch, dtype)[2..];
    NumberFields(Defaults(), s.epoch, 0);
    var f1 := Defaults().(epoch := s.epoch);
    NumberFields(f1, 0, s.steps);
    var f2 := f1.(steps := s.steps);
    NumberFields(f2, 0, s.lrMilli);
    var f3 := f2.(lrMilli := s.lrMilli);
    NumberFields(f3, 0, s.samples);
    var f4 := f3.(samples := s.samples);
    NumberFields(f4, 0, s.offset);
    var f5 := f4.(offset := s.offset);
    NameFields(f5, arch);
    NameFields(f5.(arch := arch), dtype);
    assert Collect(parts, 1) == f1;
    assert Collect(parts, 2) == f2;
    assert Collect(parts, 3) == f3;
    assert Collect(parts, 4) == f4;
    assert Collect(parts, 5) == f5;
    assert Collect(parts, 6) == f5.(arch := arch);
  }

  /**
   Parsing a written job: the epoch survives unchanged and the rest comes back normalised, for
   every u32, unless the job names a foreign architecture or number format; then it is refused.
   */
  lemma NamedJobParses(s: Spec, arch: Bytes, dtype: Bytes)
    requires Plain(arch) && Plain(dtype)
    ensures ParseJob(EncodeNamed(s, arch, dtype))
         == if (arch == [] || arch == Mlp512()) && (dtype == [] || dtype == Q16Name())
            then Ok(Normalise(s.epoch, s.steps, s.lrMilli, s.samples, s.offset)) else Err(BadInput)
  {
    hide Field, Ascii, Decimal, Mlp512, Q16Name, Shared, VersionTag, Collect, WithField, JobParts, Plain, Normalise;
    var parts := JobParts(s, arch, dtype);
    JobPartsOk(s, arch, dtype);
    SplitJoined(parts, COLON);
    JoinedIsAscii(parts);
    AsciiIsUtf8(EncodeNamed(s, arch, dtype));
    JobStartsWithPrefix(s, arch, dtype);
    CollectEncoded(s, arch, dtype);
  }

  /** The wire round trip of the encoder's own jobs. */
  lemma JobRoundTrip(epoch: u64, steps: u32, lrMilli: u32, samples: u32, offset: u32)
    ensures ParseJob(EncodeJob(epoch, steps, lrMilli, samples, offset))
         == Ok(Normalise(epoch, steps, lrMilli, samples, offset))
  {
    hide EncodeNamed, ParseJob, Plain, Normalise, Mlp512, Q16Name;
    LiteralsArePlain();
    NamedJobParses(Spec(epoch, steps, lrMilli, samples, offset), Mlp512(), Q16Name());
  }

  /** Whatever bytes were accepted, encoding the result and parsing again changes nothing. */
  lemma ParseEncodeParse(input: Bytes)
    requires ParseJob(input).Ok?
    ensures ParseJob(Encoded(ParseJob(input).value)) == ParseJob(input)
  {
    hide ParseJob, EncodeJob, Normalise;
    var s := ParseJob(input).value;
    AcceptedIsNormal(input);
    NormaliseIdempotent(s);
    JobRoundTrip(s.epoch, s.steps, s.lrMilli, s.samples, s.offset);
  }
}
