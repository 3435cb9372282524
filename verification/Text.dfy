/**
 The text side of job messages: UTF-8 validity, splitting on a separator, and decimal
 numbers, as Rust's `str` methods define them, on bytes.
 */
module Text {
  import opened Machine

  /** The bytes of an ASCII literal. */
  function Ascii(s: string): (b: Bytes)
    ensures |b| == |s|
  {
    seq(|s|, i requires 0 <= i < |s| => s[i] as int % 256)
  }

  /** The first n characters are letters, digits, `-` or `_`: neither separator is among them. */
  predicate PlainText(s: string, n: nat)
    requires n <= |s|
  {
    n == 0 || (PlainChar(s[n - 1]) && PlainText(s, n - 1))
  }

  predicate PlainChar(c: char) {
    'a' <= c <= 'z' || '0' <= c <= '9' || c == '-' || c == '_'
  }

  /** ASCII without `:` and `=`: safe as a key or a value. */
  ghost predicate Plain(b: Bytes) { IsAscii(b) && COLON !in b && EQUALS !in b }

  lemma {:induction false} PlainTextIsPlain(s: string, n: nat)
    requires n <= |s| && PlainText(s, n)
    ensures Plain(Ascii(s)[..n])
    ensures n == |s| ==> Plain(Ascii(s))
  {
    if n > 0 {
      PlainTextIsPlain(s, n - 1);
      assert Ascii(s)[..n] == Ascii(s)[..n - 1] + [Ascii(s)[n - 1]];
    }
    assert n == |s| ==> Ascii(s)[..n] == Ascii(s);
  }

  const COLON: byte := 58
  const EQUALS: byte := 61
  const PLUS: byte := 43
  const ZERO: byte := 48

  // ---------- UTF-8 ----------

  predicate Continuation(b: byte) { 0x80 <= b <= 0xBF }

  /** Length of the well-formed UTF-8 sequence at the front of s, 0 if there is none. */
  function Utf8Width(s: Bytes): (n: nat)
    requires s != []
    ensures n <= |s|
  {
    var a := s[0];
    if a < 0x80 then 1
    else if |s| >= 2 && 0xC2 <= a <= 0xDF && Continuation(s[1]) then 2
    else if |s| >= 3 && 0xE0 <= a <= 0xEF && Continuation(s[1]) && Continuation(s[2])
            && (a == 0xE0 ==> s[1] >= 0xA0) && (a == 0xED ==> s[1] <= 0x9F) then 3
    else if |s| >= 4 && 0xF0 <= a <= 0xF4 && Continuation(s[1]) && Continuation(s[2]) && Continuation(s[3])
            && (a == 0xF0 ==> s[1] >= 0x90) && (a == 0xF4 ==> s[1] <= 0x8F) then 4
    else 0
  }

  /** `str::from_utf8` succeeds. */
  predicate ValidUtf8(s: Bytes)
    decreases |s|
  {
    s == [] || (Utf8Width(s) > 0 && ValidUtf8(s[Utf8Width(s)..]))
  }

  ghost predicate IsAscii(s: Bytes) { forall i :: 0 <= i < |s| ==> s[i] < 0x80 }

  lemma {:induction false} AsciiIsUtf8(s: Bytes)
    requires IsAscii(s)
    ensures ValidUtf8(s)
    decreases |s|
  {
    if s != [] {
      AsciiIsUtf8(s[1..]);
    }
  }

  // ---------- splitting ----------

  /** `split(sep)`: always at least one part. */
  function SplitOn(s: Bytes, sep: byte): (parts: seq<Bytes>)
    ensures |parts| >= 1
  {
    if s == [] then [[]]
    else
      var rest := SplitOn(s[1..], sep);
      if s[0] == sep then [[]] + rest else [[s[0]] + rest[0]] + rest[1..]
  }

  /** `split_once(sep)`. */
  function SplitOnce(s: Bytes, sep: byte): Option<(Bytes, Bytes)> {
    if s == [] then None
    else if s[0] == sep then Some(([], s[1..]))
    else
      match SplitOnce(s[1..], sep)
      case None => None
      case Some(kv) => Some(([s[0]] + kv.0, kv.1))
  }

  /** Parts with the separator between them. */
  function JoinWith(parts: seq<Bytes>, sep: byte): Bytes
    requires |parts| >= 1
  {
    if |parts| == 1 then parts[0] else parts[0] + [sep] + JoinWith(parts[1..], sep)
  }

  lemma {:induction false} SplitFront(a: Bytes, b: Bytes, sep: byte)
    requires sep !in a
    ensures SplitOn(a + [sep] + b, sep) == [a] + SplitOn(b, sep)
  {
    if a == [] {
      assert (a + [sep] + b)[1..] == b;
    } else {
      SplitFront(a[1..], b, sep);
      assert (a + [sep] + b)[1..] == a[1..] + [sep] + b;
      assert [a[0]] + a[1..] == a;
    }
  }

  lemma {:induction false} SplitWhole(a: Bytes, sep: byte)
    requires sep !in a
    ensures SplitOn(a, sep) == [a]
  {
    if a != [] {
      SplitWhole(a[1..], sep);
      assert [a[0]] + a[1..] == a;
    }
  }

  /** Splitting undoes joining when no part holds the separator. */
  lemma {:induction false} SplitJoined(parts: seq<Bytes>, sep: byte)
    requires |parts| >= 1
    requires forall i :: 0 <= i < |parts| ==> sep !in parts[i]
    ensures SplitOn(JoinWith(parts, sep), sep) == parts
  {
    if |parts| == 1 {
      SplitWhole(parts[0], sep);
    } else {
      SplitJoined(parts[1..], sep);
      SplitFront(parts[0], JoinWith(parts[1..], sep), sep);
    }
  }

  lemma {:induction false} SplitOnceAt(k: Bytes, v: Bytes, sep: byte)
    requires sep !in k
    ensures SplitOnce(k + [sep] + v, sep) == Some((k, v))
  {
    if k == [] {
      assert (k + [sep] + v)[1..] == v;
    } else {
      SplitOnceAt(k[1..], v, sep);
      assert (k + [sep] + v)[1..] == k[1..] + [sep] + v;
      assert [k[0]] + k[1..] == k;
    }
  }

  // ---------- decimal ----------

  /** `{n}` in a format string. */
  function Decimal(n: nat): (s: Bytes)
    ensures s != []
  {
    if n < 10 then [ZERO + n] else Decimal(n / 10) + [ZERO + n % 10]
  }

  predicate IsDigit(b: byte) { ZERO <= b <= ZERO + 9 }

  function DigitsValue(s: Bytes): Option<nat> {
    if s == [] then Some(0)
    else
      var last := s[|s| - 1];
      match DigitsValue(s[..|s| - 1])
      case None => None
      case Some(high) => if IsDigit(last) then Some(10 * high + (last - ZERO)) else None
  }

  /** `parse::<uN>()`: an optional plus sign, at least one digit, no value above max. */
  function ParseUnsigned(s: Bytes, max: nat): (r: Option<nat>)
    ensures r.Some? ==> r.value <= max
  {
    var digits := if s != [] && s[0] == PLUS then s[1..] else s;
    if digits == [] then None
    else
      match DigitsValue(digits)
      case None => None
      case Some(v) => if v <= max then Some(v) else None
  }

  lemma {:induction false} DecimalDigits(n: nat)
    ensures DigitsValue(Decimal(n)) == Some(n)
    ensures forall i :: 0 <= i < |Decimal(n)| ==> IsDigit(Decimal(n)[i])
  {
    if n < 10 {
      assert DigitsValue([]) == Some(0);
    } else {
      DecimalDigits(n / 10);
      assert Decimal(n)[..|Decimal(n)| - 1] == Decimal(n / 10);
    }
  }

  /** Printing then parsing a number that fits gives it back. */
  lemma DecimalRoundTrip(n: nat, max: nat)
    requires n <= max
    ensures ParseUnsigned(Decimal(n), max) == Some(n)
  {
    DecimalDigits(n);
    assert IsDigit(Decimal(n)[0]);
  }

  lemma DecimalIsPlain(n: nat)
    ensures Plain(Decimal(n))
  {
    DecimalDigits(n);
  }

  // ---------- key=value parts ----------

  function Field(key: Bytes, value: Bytes): Bytes { key + [EQUALS] + value }

  function U32Or(v: Bytes, current: u32): u32 {
    match ParseUnsigned(v, MAX_U32)
    case Some(n) => n
    case None => current
  }

  function U64Or(v: Bytes, current: u64): u64 {
    match ParseUnsigned(v, MAX_U64)
    case Some(n) => n
    case None => current
  }

  function AfterTwo(parts: seq<Bytes>): seq<Bytes> {
    if |parts| < 2 then [] else parts[2..]
  }

  lemma NumberKeysPlain()
    ensures Plain(Ascii("epoch")) && Plain(Ascii("steps")) && Plain(Ascii("lr_milli"))
    ensures Plain(Ascii("samples")) && Plain(Ascii("offset"))
  {
    hide Plain, Ascii;
    PlainTextIsPlain("epoch", 5);
    PlainTextIsPlain("steps", 5);
    PlainTextIsPlain("lr_milli", 8);
    PlainTextIsPlain("samples", 7);
    PlainTextIsPlain("offset", 6);
  }

  /** A part the splitter returns whole: ASCII, no colon. */
  ghost predicate PartOk(b: Bytes) { IsAscii(b) && COLON !in b }

  lemma FieldIsPart(k: Bytes, v: Bytes)
    requires Plain(k) && Plain(v)
    ensures PartOk(Field(k, v)) && SplitOnce(Field(k, v), EQUALS) == Some((k, v))
  {
    SplitOnceAt(k, v, EQUALS);
  }

  lemma {:induction false} JoinedIsAscii(parts: seq<Bytes>)
    requires |parts| >= 1 && forall i :: 0 <= i < |parts| ==> PartOk(parts[i])
    ensures IsAscii(JoinWith(parts, COLON))
  {
    if |parts| > 1 {
      JoinedIsAscii(parts[1..]);
    }
  }

  lemma NumberField(k: Bytes, n: nat)
    requires Plain(k)
    ensures PartOk(Field(k, Decimal(n))) && SplitOnce(Field(k, Decimal(n)), EQUALS) == Some((k, Decimal(n)))
  {
    DecimalIsPlain(n);
    FieldIsPart(k, Decimal(n));
  }
}
