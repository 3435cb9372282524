/**
 Job messages as they stand on the wire (crates/mesh-ai-v2/src/job.rs, crates/mesh-ai/src/legs.rs): the
 text that is written, which texts are accepted, and what a text is read as, part by part. Splitting and
 number reading are said in terms of the text itself.
 */
module Wire {
  import opened Machine
  import opened Text
  import opened Job

  // ---------- splitting ----------

  /** A text splits into these parts just when none holds the separator and joined by it they are the text. */
  lemma {:induction false} SplitIff(s: Bytes, sep: byte, parts: seq<Bytes>)
    requires |parts| >= 1
    ensures SplitOn(s, sep) == parts <==>
      JoinWith(parts, sep) == s && forall i :: 0 <= i < |parts| ==> sep !in parts[i]
  {
    if (forall i :: 0 <= i < |parts| ==> sep !in parts[i]) && JoinWith(parts, sep) == s {
      SplitJoined(parts, sep);
    }
    if SplitOn(s, sep) == parts {
      SplitsBack(s, sep);
    }
  }

  lemma {:induction false} SplitsBack(s: Bytes, sep: byte)
    ensures JoinWith(SplitOn(s, sep), sep) == s
    ensures forall i :: 0 <= i < |SplitOn(s, sep)| ==> sep !in SplitOn(s, sep)[i]
  {
    if s != [] {
      SplitsBack(s[1..], sep);
      var rest := SplitOn(s[1..], sep);
      if s[0] == sep {
        assert ([[]] + rest)[1..] == rest;
        assert [] + [sep] + s[1..] == s;
      } else {
        var parts := [[s[0]] + rest[0]] + rest[1..];
        assert parts[1..] == rest[1..];
        assert [s[0]] + s[1..] == s;
      }
    }
  }

  /** A part is key and value just when it is the key, the separator and the value, and the key does not hold it. */
  lemma {:induction false} SplitOnceIff(p: Bytes, sep: byte, k: Bytes, v: Bytes)
    ensures SplitOnce(p, sep) == Some((k, v)) <==> p == k + [sep] + v && sep !in k
    ensures SplitOnce(p, sep) == None <==> sep !in p
  {
    if p == k + [sep] + v && sep !in k {
      SplitOnceAt(k, v, sep);
    }
    SplitsOnceBack(p, sep);
  }

  lemma {:induction false} SplitsOnceBack(p: Bytes, sep: byte)
    ensures match SplitOnce(p, sep)
      case Some(kv) => p == kv.0 + [sep] + kv.1 && sep !in kv.0
      case None => sep !in p
  {
    if p != [] {
      SplitsOnceBack(p[1..], sep);
      assert p == [p[0]] + p[1..];
      if p[0] == sep {
        assert p == [] + [sep] + p[1..];
      }
    }
  }

  // ---------- the last part that counts ----------

  /** The part gives this key this text. */
  ghost predicate Gives(part: Bytes, key: Bytes, v: Bytes) { part == key + [61] + v }

  /** The part gives this key a number that fits. */
  ghost predicate Says(part: Bytes, key: Bytes, max: nat, n: nat) {
    exists v :: Gives(part, key, v) && ParseUnsigned(v, max) == Some(n)
  }

  /** The number is the last that any of the parts says for the key, or else the default. */
  ghost predicate LastSaid(parts: seq<Bytes>, key: Bytes, max: nat, default: nat, n: nat) {
    || (n == default && forall j, u :: 0 <= j < |parts| ==> !Says(parts[j], key, max, u))
    || exists i :: 0 <= i < |parts| && Says(parts[i], key, max, n)
                   && forall j, u :: i < j < |parts| ==> !Says(parts[j], key, max, u)
  }

  /** The text is the last that any of the parts gives the key, or else empty. */
  ghost predicate LastGiven(parts: seq<Bytes>, key: Bytes, v: Bytes) {
    || (v == [] && forall j, u :: 0 <= j < |parts| ==> !Gives(parts[j], key, u))
    || exists i :: 0 <= i < |parts| && Gives(parts[i], key, v)
                   && forall j, u :: i < j < |parts| ==> !Gives(parts[j], key, u)
  }

  lemma SaidStays(parts: seq<Bytes>, part: Bytes, key: Bytes, max: nat, default: nat, n: nat)
    requires LastSaid(parts, key, max, default, n) && forall u :: !Says(part, key, max, u)
    ensures LastSaid(parts + [part], key, max, default, n)
  {
    hide Says;
    var all := parts + [part];
    if exists i :: 0 <= i < |parts| && Says(parts[i], key, max, n)
                   && forall j, u :: i < j < |parts| ==> !Says(parts[j], key, max, u) {
      var i :| 0 <= i < |parts| && Says(parts[i], key, max, n)
               && forall j, u :: i < j < |parts| ==> !Says(parts[j], key, max, u);
      assert all[i] == parts[i];
      forall j, u | i < j < |all| ensures !Says(all[j], key, max, u) {
      }
    }
  }

  lemma SaidNow(parts: seq<Bytes>, part: Bytes, key: Bytes, max: nat, default: nat, n: nat)
    requires Says(part, key, max, n)
    ensures LastSaid(parts + [part], key, max, default, n)
  {
    hide Says;
    assert (parts + [part])[|parts|] == part;
  }

  lemma GivenStays(parts: seq<Bytes>, part: Bytes, key: Bytes, v: Bytes)
    requires LastGiven(parts, key, v) && forall u :: !Gives(part, key, u)
    ensures LastGiven(parts + [part], key, v)
  {
    hide Gives;
    var all := parts + [part];
    if exists i :: 0 <= i < |parts| && Gives(parts[i], key, v)
                   && forall j, u :: i < j < |parts| ==> !Gives(parts[j], key, u) {
      var i :| 0 <= i < |parts| && Gives(parts[i], key, v)
               && forall j, u :: i < j < |parts| ==> !Gives(parts[j], key, u);
      assert all[i] == parts[i];
      forall j, u | i < j < |all| ensures !Gives(all[j], key, u) {
      }
    }
  }

  lemma GivenNow(parts: seq<Bytes>, part: Bytes, key: Bytes, v: Bytes)
    requires Gives(part, key, v)
    ensures LastGiven(parts + [part], key, v)
  {
    hide Gives;
    assert (parts + [part])[|parts|] == part;
  }

  /** What one part does to a number: it is replaced if the part says one for its key, and stays otherwise. */
  lemma NumberStep(parts: seq<Bytes>, part: Bytes, key: Bytes, max: nat, default: nat, n: nat, n': nat)
    requires LastSaid(parts, key, max, default, n) && 61 !in key
    requires var kv := SplitOnce(part, 61);
      n' == if kv.Some? && kv.value.0 == key && ParseUnsigned(kv.value.1, max).Some?
            then ParseUnsigned(kv.value.1, max).value else n
    ensures LastSaid(parts + [part], key, max, default, n')
  {
    hide LastSaid, ParseUnsigned, SplitOnce;
    var kv := SplitOnce(part, 61);
    if kv.Some? {
      SplitOnceIff(part, 61, kv.value.0, kv.value.1);
    }
    if kv.Some? && kv.value.0 == key && ParseUnsigned(kv.value.1, max).Some? {
      assert Gives(part, key, kv.value.1);
      SaidNow(parts, part, key, max, default, n');
    } else {
      forall u: nat ensures !Says(part, key, max, u) {
        forall v | Gives(part, key, v) ensures ParseUnsigned(v, max) != Some(u) {
          SplitOnceIff(part, 61, key, v);
        }
      }
      SaidStays(parts, part, key, max, default, n);
    }
  }

  lemma TextStep(parts: seq<Bytes>, part: Bytes, key: Bytes, v: Bytes, v': Bytes)
    requires LastGiven(parts, key, v) && 61 !in key
    requires var kv := SplitOnce(part, 61); v' == if kv.Some? && kv.value.0 == key then kv.value.1 else v
    ensures LastGiven(parts + [part], key, v')
  {
    hide LastGiven, SplitOnce;
    var kv := SplitOnce(part, 61);
    if kv.Some? {
      SplitOnceIff(part, 61, kv.value.0, kv.value.1);
    }
    if kv.Some? && kv.value.0 == key {
      GivenNow(parts, part, key, v');
    } else {
      forall u ensures !Gives(part, key, u) {
        if Gives(part, key, u) {
          SplitOnceIff(part, 61, key, u);
        }
      }
      GivenStays(parts, part, key, v);
    }
  }

  lemma NothingSaid(key: Bytes, max: nat, default: nat)
    ensures LastSaid([], key, max, default, default) && LastGiven([], key, [])
  {
  }

  // ---------- keys ----------

  lemma KeyBytes()
    ensures Ascii("epoch") == [101, 112, 111, 99, 104] && Ascii("steps") == [115, 116, 101, 112, 115]
    ensures Ascii("lr_milli") == [108, 114, 95, 109, 105, 108, 108, 105]
    ensures Ascii("samples") == [115, 97, 109, 112, 108, 101, 115]
    ensures Ascii("offset") == [111, 102, 102, 115, 101, 116]
    ensures Ascii("arch") == [97, 114, 99, 104] && Ascii("dtype") == [100, 116, 121, 112, 101]
    ensures Ascii("leg") == [108, 101, 103]
  {
  }

  // ---------- v2 jobs ----------

  /** The fields are the last numbers and names given, by default 0, 64, 50, 256, 0 and none. */
  ghost predicate ReadAs(parts: seq<Bytes>, f: Fields) {
    && LastSaid(parts, Ascii("epoch"), 0xFFFF_FFFF_FFFF_FFFF, 0, f.epoch)
    && LastSaid(parts, Ascii("steps"), 0xFFFF_FFFF, 64, f.steps)
    && LastSaid(parts, Ascii("lr_milli"), 0xFFFF_FFFF, 50, f.lrMilli)
    && LastSaid(parts, Ascii("samples"), 0xFFFF_FFFF, 256, f.samples)
    && LastSaid(parts, Ascii("offset"), 0xFFFF_FFFF, 0, f.offset)
    && LastGiven(parts, Ascii("arch"), f.arch)
    && LastGiven(parts, Ascii("dtype"), f.dtype)
  }

  lemma ReadOne(parts: seq<Bytes>, part: Bytes, f: Fields)
    requires ReadAs(parts, f)
    ensures ReadAs(parts + [part], WithField(f, part))
  {
    hide LastSaid, LastGiven, SplitOnce, ParseUnsigned, Ascii;
    KeyBytes();
    var f' := WithField(f, part);
    NumberStep(parts, part, Ascii("epoch"), 0xFFFF_FFFF_FFFF_FFFF, 0, f.epoch, f'.epoch);
    NumberStep(parts, part, Ascii("steps"), 0xFFFF_FFFF, 64, f.steps, f'.steps);
    NumberStep(parts, part, Ascii("lr_milli"), 0xFFFF_FFFF, 50, f.lrMilli, f'.lrMilli);
    NumberStep(parts, part, Ascii("samples"), 0xFFFF_FFFF, 256, f.samples, f'.samples);
    NumberStep(parts, part, Ascii("offset"), 0xFFFF_FFFF, 0, f.offset, f'.offset);
    TextStep(parts, part, Ascii("arch"), f.arch, f'.arch);
    TextStep(parts, part, Ascii("dtype"), f.dtype, f'.dtype);
  }

  lemma {:induction false} CollectMeaning(parts: seq<Bytes>, n: nat)
    requires n <= |parts|
    ensures ReadAs(parts[..n], Collect(parts, n))
  {
    hide ReadAs, WithField;
    if n == 0 {
      NothingRead(parts[..0]);
    } else {
      CollectMeaning(parts, n - 1);
      ReadOne(parts[..n - 1], parts[n - 1], Collect(parts, n - 1));
      assert parts[..n] == parts[..n - 1] + [parts[n - 1]];
    }
  }

  lemma NothingRead(parts: seq<Bytes>)
    requires parts == []
    ensures ReadAs(parts, Defaults())
  {
    hide LastSaid, LastGiven, Ascii;
    NothingSaid(Ascii("epoch"), 0xFFFF_FFFF_FFFF_FFFF, 0);
    NothingSaid(Ascii("steps"), 0xFFFF_FFFF, 64);
    NothingSaid(Ascii("lr_milli"), 0xFFFF_FFFF, 50);
    NothingSaid(Ascii("samples"), 0xFFFF_FFFF, 256);
    NothingSaid(Ascii("offset"), 0xFFFF_FFFF, 0);
    NothingSaid(Ascii("arch"), 0, 0);
    NothingSaid(Ascii("dtype"), 0, 0);
  }

  lemma PrefixIs()
    ensures Prefix() == Ascii("mesh-mltrain-shared:v2:")
  {
  }

  /**
   A text is a job just when it is UTF-8, starts with mesh-mltrain-shared:v2: and the last architecture and
   number format it names, if any, are mlp512 and q16; and the fields it is read as are the last ones given
   in its parts after the second.
   */
  lemma JobMeaning(input: Bytes) returns (f: Fields)
    ensures ReadAs(if |SplitOn(input, 58)| < 2 then [] else SplitOn(input, 58)[2..], f)
    ensures ParseJob(input).Ok? <==>
      (ValidUtf8(input) && Ascii("mesh-mltrain-shared:v2:") <= input
       && (f.arch == [] || f.arch == Ascii("mlp512")) && (f.dtype == [] || f.dtype == Ascii("q16")))
    ensures ParseJob(input).Err? ==> ParseJob(input).error == BadInput
    ensures ParseJob(input).Ok? ==> Clamped(f, ParseJob(input).value)
  {
    hide ValidUtf8, SplitOn, Ascii, ReadAs, Clamped, Collect, Normalise, Prefix;
    PrefixIs();
    var parts := AfterTwo(SplitOn(input, COLON));
    f := Collect(parts, |parts|);
    CollectMeaning(parts, |parts|);
    assert parts[..|parts|] == parts;
    NormaliseIsNearest(f);
  }

  /** Of the numbers lo..hi, n' is the one nearest to n. */
  ghost predicate Nearest(lo: int, hi: int, n: int, n': int) {
    lo <= n' <= hi && forall m :: lo <= m <= hi ==> Away(n, n') <= Away(n, m)
  }

  function Away(a: int, b: int): nat { if a < b then b - a else a - b }

  /**
   The epoch is kept; steps, rate and offset are the nearest allowed; the window is the nearest in size that
   is allowed and ends inside the dataset.
   */
  ghost predicate Clamped(f: Fields, s: Spec) {
    && s.epoch == f.epoch
    && Nearest(1, 1024, f.steps, s.steps)
    && Nearest(1, 500, f.lrMilli, s.lrMilli)
    && Nearest(0, 4080, f.offset, s.offset)
    && Nearest(16, if s.offset <= 2048 then 2048 else 4096 - s.offset, f.samples, s.samples)
  }

  lemma NormaliseIsNearest(f: Fields)
    ensures Clamped(f, Normalise(f.epoch, f.steps, f.lrMilli, f.samples, f.offset))
  {
  }

  /** No number but one is nearest. */
  lemma NearestIsOne(lo: int, hi: int, n: int, a: int, b: int)
    requires Nearest(lo, hi, n, a) && Nearest(lo, hi, n, b)
    ensures a == b
  {
    var m := if n < lo then lo else if n > hi then hi else n;
    assert Away(n, a) <= Away(n, m) && Away(n, b) <= Away(n, m);
  }

  /** The shortest job there is: epoch 0, 64 steps at 50/1000 on the first 256 samples. */
  lemma DefaultJob()
    ensures ParseJob(Ascii("mesh-mltrain-shared:v2:")) == Ok(Spec(0, 64, 50, 256, 0))
  {
    hide Ascii;
    var tag, v := Ascii("mesh-mltrain-shared"), Ascii("v2");
    LiteralsArePlain();
    PrefixIs();
    var parts: seq<Bytes> := [tag, v, []];
    SplitJoined(parts, COLON);
    JoinLast(parts, 1, COLON);
    JoinLast(parts, 0, COLON);
    assert parts[0..] == parts;
    assert JoinWith(parts, COLON) == Prefix();
    JoinedIsAscii(parts);
    AsciiIsUtf8(Prefix());
    assert AfterTwo(parts) == [[]];
    assert Collect([[]], 0) == Defaults();
    assert WithField(Defaults(), []) == Defaults();
  }

  // ---------- the text written ----------

  /** The text of a job, character by character. */
  lemma JobText(epoch: u64, steps: u32, lrMilli: u32, samples: u32, offset: u32)
    ensures EncodeJob(epoch, steps, lrMilli, samples, offset)
         == Ascii("mesh-mltrain-shared:v2:epoch=") + Decimal(epoch) + Ascii(":steps=") + Decimal(steps)
            + Ascii(":lr_milli=") + Decimal(lrMilli) + Ascii(":samples=") + Decimal(samples)
            + Ascii(":offset=") + Decimal(offset) + Ascii(":arch=mlp512:dtype=q16")
  {
    hide Ascii, Decimal;
    HeadLiteral();
    KeyLiterals();
    TailLiteral();
    var s := Spec(epoch, steps, lrMilli, samples, offset);
    var p := JobParts(s, Mlp512(), Q16Name());
    JoinNine(p, COLON);
    NineFields(Ascii("mesh-mltrain-shared"), Ascii("v2"), Ascii("epoch"), Decimal(epoch), Ascii("steps"),
               Decimal(steps), Ascii("lr_milli"), Decimal(lrMilli), Ascii("samples"), Decimal(samples),
               Ascii("offset"), Decimal(offset), Ascii("arch"), Ascii("mlp512"), Ascii("dtype"), Ascii("q16"));
  }

  lemma NineFields(t: Bytes, u: Bytes, k1: Bytes, v1: Bytes, k2: Bytes, v2: Bytes, k3: Bytes, v3: Bytes, k4: Bytes,
                   v4: Bytes, k5: Bytes, v5: Bytes, k6: Bytes, v6: Bytes, k7: Bytes, v7: Bytes)
    ensures t + [58] + (u + [58] + (Field(k1, v1) + [58] + (Field(k2, v2) + [58] + (Field(k3, v3) + [58]
            + (Field(k4, v4) + [58] + (Field(k5, v5) + [58] + (Field(k6, v6) + [58] + Field(k7, v7))))))))
         == (t + [58] + u + [58] + k1 + [61]) + v1 + ([58] + k2 + [61]) + v2 + ([58] + k3 + [61]) + v3
            + ([58] + k4 + [61]) + v4 + ([58] + k5 + [61]) + v5
            + ([58] + k6 + [61] + v6 + [58] + k7 + [61] + v7)
  {
  }

  lemma HeadLiteral()
    ensures Ascii("mesh-mltrain-shared:v2:epoch=")
         == Ascii("mesh-mltrain-shared") + [58] + Ascii("v2") + [58] + Ascii("epoch") + [61]
  {
  }

  lemma TailLiteral()
    ensures Ascii(":arch=mlp512:dtype=q16")
         == [58] + Ascii("arch") + [61] + Ascii("mlp512") + [58] + Ascii("dtype") + [61] + Ascii("q16")
  {
  }

  lemma KeyLiterals()
    ensures Ascii(":epoch=") == [58] + Ascii("epoch") + [61] && Ascii(":steps=") == [58] + Ascii("steps") + [61]
    ensures Ascii(":lr_milli=") == [58] + Ascii("lr_milli") + [61]
    ensures Ascii(":samples=") == [58] + Ascii("samples") + [61]
    ensures Ascii(":offset=") == [58] + Ascii("offset") + [61]
  {
  }

  lemma JoinNine(p: seq<Bytes>, sep: byte)
    requires |p| == 9
    ensures JoinWith(p, sep)
         == p[0] + [sep] + (p[1] + [sep] + (p[2] + [sep] + (p[3] + [sep] + (p[4] + [sep]
            + (p[5] + [sep] + (p[6] + [sep] + (p[7] + [sep] + p[8])))))))
  {
    JoinLast(p, 7, sep);
    JoinLast(p, 6, sep);
    JoinLast(p, 5, sep);
    JoinLast(p, 4, sep);
    JoinLast(p, 3, sep);
    JoinLast(p, 2, sep);
    JoinLast(p, 1, sep);
    JoinLast(p, 0, sep);
    assert p[0..] == p;
  }

  lemma JoinLast(p: seq<Bytes>, i: nat, sep: byte)
    requires i + 1 < |p|
    ensures JoinWith(p[i..], sep) == p[i] + [sep] + (if i + 2 == |p| then p[i + 1] else JoinWith(p[i + 1..], sep))
  {
    assert p[i..][1..] == p[i + 1..];
  }
}
