/**
 The weight blob (crates/mesh-ai-v2/src/mlp.rs): magic, count, then every weight as four
 little-endian two's-complement bytes, six sections back to back.
 */
module WeightCodec {
  import opened Machine
  import opened Network
  import opened Text

  const MAGIC_LEN: nat := 11
  const HEADER_LEN: nat := 15
  const BLOB_LEN: nat := HEADER_LEN + 4 * N_WEIGHTS

  function Magic(): (b: Bytes)
    ensures |b| == MAGIC_LEN
  {
    Ascii("MESHBRAINv2")
  }

  function Header(): (b: Bytes)
    ensures |b| == HEADER_LEN
  {
    Magic() + PutU32(N_WEIGHTS)
  }

  function EncodeWords(v: Vec): (b: Bytes)
    ensures |b| == 4 * |v|
  {
    if v == [] then [] else EncodeWords(v[..|v| - 1]) + PutI32(v[|v| - 1])
  }

  function Word(b: Bytes, i: nat): (w: Bytes)
    requires 4 * i + 4 <= |b|
    ensures |w| == 4
  {
    b[4 * i..4 * i + 4]
  }

  function DecodeWords(b: Bytes, n: nat): (v: Vec)
    requires |b| >= 4 * n
    ensures |v| == n
  {
    seq(n, i requires 0 <= i < n => GetI32(Word(b, i)))
  }

  function EncodeWeights(m: Net): (b: Bytes)
    ensures |b| == BLOB_LEN
  {
    Header() + EncodeWords(Join(m))
  }

  function DecodeWeights(b: Bytes): Option<Net> {
    if |b| < BLOB_LEN || b[..MAGIC_LEN] != Magic() then None
    else
      var n := GetU32(b[MAGIC_LEN..HEADER_LEN]);
      if n != N_WEIGHTS || |b| < HEADER_LEN + n * 4 then None
      else Some(Split(DecodeWords(b[HEADER_LEN..], N_WEIGHTS)))
  }

  lemma {:induction false} EncodedWordAt(v: Vec, tail: Bytes, i: nat)
    requires i < |v|
    ensures Word(EncodeWords(v) + tail, i) == PutI32(v[i])
  {
    hide PutI32;
    var last := PutI32(v[|v| - 1]);
    assert EncodeWords(v) + tail == EncodeWords(v[..|v| - 1]) + (last + tail);
    if i < |v| - 1 {
      EncodedWordAt(v[..|v| - 1], last + tail, i);
    }
  }

  lemma WordsRoundTrip(v: Vec, tail: Bytes)
    ensures DecodeWords(EncodeWords(v) + tail, |v|) == v
  {
    hide GetI32, PutI32, EncodeWords, Word;
    forall i | 0 <= i < |v| ensures DecodeWords(EncodeWords(v) + tail, |v|)[i] == v[i] {
      EncodedWordAt(v, tail, i);
      I32RoundTrip(v[i]);
    }
  }

  lemma WordIsSlice(b: Bytes, i: nat)
    requires 4 * i + 4 <= |b|
    ensures Word(b, i) == b[4 * i..4 * i + 4]
  {
  }

  lemma {:induction false} WordsReencode(b: Bytes, n: nat)
    requires |b| >= 4 * n
    ensures EncodeWords(DecodeWords(b, n)) == b[..4 * n]
  {
    hide GetI32, PutI32, Word;
    if n > 0 {
      WordsReencode(b, n - 1);
      assert DecodeWords(b, n)[..n - 1] == DecodeWords(b, n - 1);
      I32Reencodes(Word(b, n - 1));
      assert b[..4 * n] == b[..4 * (n - 1)] + Word(b, n - 1) by { WordIsSlice(b, n - 1); }
    }
  }

  /** Decoding undoes encoding; bytes after the blob are ignored. */
  lemma WeightsRoundTrip(m: Net, tail: Bytes)
    ensures DecodeWeights(EncodeWeights(m) + tail) == Some(m)
  {
    hide GetU32, PutU32, Magic, EncodeWords, DecodeWords, Split, Join;
    var b := EncodeWeights(m) + tail;
    assert b[..MAGIC_LEN] == Magic();
    assert b[MAGIC_LEN..HEADER_LEN] == PutU32(N_WEIGHTS);
    U32RoundTrip(N_WEIGHTS);
    assert b[HEADER_LEN..] == EncodeWords(Join(m)) + tail;
    WordsRoundTrip(Join(m), tail);
    SplitJoin(m, Join(m));
  }

  lemma HeaderMatches(b: Bytes)
    requires |b| >= HEADER_LEN
    ensures b[..HEADER_LEN] == Header() <==> b[..MAGIC_LEN] == Magic() && GetU32(b[MAGIC_LEN..HEADER_LEN]) == N_WEIGHTS
  {
    hide GetU32, PutU32, Magic;
    var count := b[MAGIC_LEN..HEADER_LEN];
    assert b[..HEADER_LEN] == b[..MAGIC_LEN] + count;
    assert Header()[..MAGIC_LEN] == Magic() && Header()[MAGIC_LEN..] == PutU32(N_WEIGHTS);
    U32Reencodes(count);
    U32RoundTrip(N_WEIGHTS);
  }

  /** A blob is accepted just when it is long enough and starts with the header. */
  lemma WeightsAcceptance(b: Bytes)
    ensures DecodeWeights(b).Some? <==> |b| >= BLOB_LEN && b[..HEADER_LEN] == Header()
  {
    hide GetU32, Magic, Header, DecodeWords, Split;
    if |b| >= BLOB_LEN {
      HeaderMatches(b);
    }
  }

  /** Re-encoding what an accepted blob held gives the blob back, without anything that trailed it. */
  lemma WeightsReencode(b: Bytes)
    requires DecodeWeights(b).Some?
    ensures |b| >= BLOB_LEN && EncodeWeights(DecodeWeights(b).value) == b[..BLOB_LEN]
  {
    hide Header, DecodeWords, EncodeWords, Split, Join;
    WeightsAcceptance(b);
    var payload := b[HEADER_LEN..];
    SplitJoin(DecodeWeights(b).value, DecodeWords(payload, N_WEIGHTS));
    WordsReencode(payload, N_WEIGHTS);
    assert b[..BLOB_LEN] == b[..HEADER_LEN] + payload[..4 * N_WEIGHTS];
  }

  // ---------- six sections ----------

  lemma {:induction false} EncodeWordsAppend(u: Vec, v: Vec)
    ensures EncodeWords(u + v) == EncodeWords(u) + EncodeWords(v)
  {
    hide PutI32;
    if v == [] {
      assert u + v == u;
    } else {
      EncodeWordsAppend(u, v[..|v| - 1]);
      assert (u + v)[..|u + v| - 1] == u + v[..|v| - 1];
    }
  }

  /** Writing the six buffers one after the other writes the flat vector. */
  lemma EncodeWordsOfJoin(m: Net)
    ensures EncodeWords(Join(m))
         == EncodeWords(m.w1) + EncodeWords(m.b1) + EncodeWords(m.w2) + EncodeWords(m.b2)
            + EncodeWords(m.w3) + EncodeWords(m.b3)
  {
    hide EncodeWords;
    EncodeWordsAppend(m.w1 + m.b1 + m.w2 + m.b2 + m.w3, m.b3);
    EncodeWordsAppend(m.w1 + m.b1 + m.w2 + m.b2, m.w3);
    EncodeWordsAppend(m.w1 + m.b1 + m.w2, m.b2);
    EncodeWordsAppend(m.w1 + m.b1, m.w2);
    EncodeWordsAppend(m.w1, m.b1);
  }

  lemma DecodeWordsSection(b: Bytes, n: nat, lo: nat, len: nat)
    requires |b| >= 4 * n && lo + len <= n
    ensures DecodeWords(b, n)[lo..lo + len] == DecodeWords(b[4 * lo..], len)
  {
    hide GetI32;
    forall i | 0 <= i < len ensures DecodeWords(b, n)[lo + i] == DecodeWords(b[4 * lo..], len)[i] {
      assert Word(b, lo + i) == Word(b[4 * lo..], i);
    }
  }

  /** Reading six sections with a moving cursor reads the six parts of the flat vector. */
  lemma SectionsOfDecoded(blob: Bytes)
    requires DecodeWeights(blob).Some?
    ensures |blob| >= BLOB_LEN
    ensures DecodeWeights(blob).value
         == Model(DecodeWords(blob[HEADER_LEN..], N_W1),
                  DecodeWords(blob[HEADER_LEN + 4 * AT_B1..], H1),
                  DecodeWords(blob[HEADER_LEN + 4 * AT_W2..], N_W2),
                  DecodeWords(blob[HEADER_LEN + 4 * AT_B2..], H2),
                  DecodeWords(blob[HEADER_LEN + 4 * AT_W3..], N_W3),
                  DecodeWords(blob[HEADER_LEN + 4 * AT_B3..], OUT))
  {
    hide DecodeWords, Magic, GetU32;
    var p := blob[HEADER_LEN..];
    DecodeWordsSection(p, N_WEIGHTS, 0, N_W1);
    DecodeWordsSection(p, N_WEIGHTS, AT_B1, H1);
    DecodeWordsSection(p, N_WEIGHTS, AT_W2, N_W2);
    DecodeWordsSection(p, N_WEIGHTS, AT_B2, H2);
    DecodeWordsSection(p, N_WEIGHTS, AT_W3, N_W3);
    DecodeWordsSection(p, N_WEIGHTS, AT_B3, OUT);
    assert p[0..] == p;
    assert p[4 * AT_B1..] == blob[HEADER_LEN + 4 * AT_B1..];
    assert p[4 * AT_W2..] == blob[HEADER_LEN + 4 * AT_W2..];
    assert p[4 * AT_B2..] == blob[HEADER_LEN + 4 * AT_B2..];
    assert p[4 * AT_W3..] == blob[HEADER_LEN + 4 * AT_W3..];
    assert p[4 * AT_B3..] == blob[HEADER_LEN + 4 * AT_B3..];
  }
}
