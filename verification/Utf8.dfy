/**
 What the byte-level text functions mean in characters: the bytes `from_utf8` accepts are the encodings
 of Unicode scalar values (RFC 3629, section 3), and trimming removes white space at either end.
 */
module Utf8 {
  import opened Machine
  import opened Text
  import opened LegJob

  /** A Unicode scalar value: no surrogates. */
  type Scalar = c: nat | c < 0xD800 || 0xE000 <= c < 0x11_0000

  /** Its one to four bytes. */
  function Encoded(c: Scalar): (b: Bytes)
    ensures 1 <= |b| <= 4
  {
    if c < 0x80 then [c]
    else if c < 0x800 then [0xC0 + c / 0x40, 0x80 + c % 0x40]
    else if c < 0x1_0000 then [0xE0 + c / 0x1000, 0x80 + c / 0x40 % 0x40, 0x80 + c % 0x40]
    else [0xF0 + c / 0x4_0000, 0x80 + c / 0x1000 % 0x40, 0x80 + c / 0x40 % 0x40, 0x80 + c % 0x40]
  }

  function EncodedAll(cs: seq<Scalar>): Bytes {
    if cs == [] then [] else Encoded(cs[0]) + EncodedAll(cs[1..])
  }

  lemma WidthOfEncoded(c: Scalar, tail: Bytes)
    ensures Utf8Width(Encoded(c) + tail) == |Encoded(c)|
  {
    if 0x800 <= c < 0x1_0000 {
      WidthThree(c, tail);
    } else if c >= 0x1_0000 {
      WidthFour(c, tail);
    }
  }

  lemma WidthThree(c: Scalar, tail: Bytes)
    requires 0x800 <= c < 0x1_0000
    ensures Utf8Width(Encoded(c) + tail) == 3
  {
  }

  lemma WidthFour(c: Scalar, tail: Bytes)
    requires c >= 0x1_0000
    ensures Utf8Width(Encoded(c) + tail) == 4
  {
  }

  /** The character a well-formed sequence at the front of s encodes. */
  lemma FrontScalar(s: Bytes) returns (c: Scalar)
    requires s != [] && Utf8Width(s) > 0
    ensures Encoded(c) == s[..Utf8Width(s)]
  {
    var n := Utf8Width(s);
    if n == 1 {
      c := s[0];
    } else if n == 2 {
      c := Join2(s[0] - 0xC0, s[1] - 0x80);
    } else if n == 3 {
      c := Join3(s[0] - 0xE0, s[1] - 0x80, s[2] - 0x80);
    } else {
      c := Join4(s[0] - 0xF0, s[1] - 0x80, s[2] - 0x80, s[3] - 0x80);
    }
  }

  lemma Join2(a: nat, b: nat) returns (c: Scalar)
    requires 2 <= a < 0x20 && b < 0x40
    ensures Encoded(c) == [0xC0 + a, 0x80 + b]
  {
    c := a * 0x40 + b;
  }

  lemma Join3(a: nat, b: nat, d: nat) returns (c: Scalar)
    requires a < 0x10 && b < 0x40 && d < 0x40 && (a == 0 ==> b >= 0x20) && (a == 0xD ==> b < 0x20)
    ensures Encoded(c) == [0xE0 + a, 0x80 + b, 0x80 + d]
  {
    c := a * 0x1000 + b * 0x40 + d;
    SixBits(a * 0x40 + b, d);
    SixBits(a, b);
    Nested(c, 0x40);
  }

  lemma SixBits(high: nat, low: nat)
    requires low < 0x40
    ensures (high * 0x40 + low) / 0x40 == high && (high * 0x40 + low) % 0x40 == low
  {
    DivModUnique(high, low, 0x40);
  }

  lemma Nested(c: nat, d: nat)
    requires d == 0x40 || d == 0x1000
    ensures c / (0x40 * d) == c / 0x40 / d
  {
  }

  lemma Join4(a: nat, b: nat, d: nat, e: nat) returns (c: Scalar)
    requires a <= 4 && b < 0x40 && d < 0x40 && e < 0x40 && (a == 0 ==> b >= 0x10) && (a == 4 ==> b < 0x10)
    ensures Encoded(c) == [0xF0 + a, 0x80 + b, 0x80 + d, 0x80 + e]
  {
    c := FourDigits(a, b, d, e);
  }

  lemma FourDigits(a: nat, b: nat, d: nat, e: nat) returns (c: Scalar)
    requires a <= 4 && b < 0x40 && d < 0x40 && e < 0x40 && (a == 0 ==> b >= 0x10) && (a == 4 ==> b < 0x10)
    ensures c >= 0x1_0000
    ensures c / 0x4_0000 == a && c / 0x1000 % 0x40 == b && c / 0x40 % 0x40 == d && c % 0x40 == e
  {
    c := a * 0x4_0000 + b * 0x1000 + d * 0x40 + e;
    SixBits(a * 0x1000 + b * 0x40 + d, e);
    SixBits(a * 0x40 + b, d);
    SixBits(a, b);
    Nested(c, 0x40);
    Nested(c, 0x1000);
    Nested(c / 0x40, 0x40);
  }

  lemma {:induction false} EncodedIsValid(cs: seq<Scalar>)
    ensures ValidUtf8(EncodedAll(cs))
  {
    hide Encoded, Utf8Width;
    if cs != [] {
      EncodedIsValid(cs[1..]);
      WidthOfEncoded(cs[0], EncodedAll(cs[1..]));
      assert EncodedAll(cs)[|Encoded(cs[0])|..] == EncodedAll(cs[1..]);
    }
  }

  lemma {:induction false} ValidIsEncoded(s: Bytes) returns (cs: seq<Scalar>)
    requires ValidUtf8(s)
    ensures EncodedAll(cs) == s
    decreases |s|
  {
    hide Encoded, Utf8Width;
    cs := [];
    if s != [] {
      var c := FrontScalar(s);
      var rest := ValidIsEncoded(s[Utf8Width(s)..]);
      cs := [c] + rest;
      assert cs[1..] == rest && s == s[..Utf8Width(s)] + s[Utf8Width(s)..];
    }
  }

  /** The bytes the parsers take for text are those that encode some characters. */
  lemma ValidUtf8Iff(s: Bytes)
    ensures ValidUtf8(s) <==> exists cs :: EncodedAll(cs) == s
  {
    hide ValidUtf8, EncodedAll;
    if ValidUtf8(s) {
      var cs := ValidIsEncoded(s);
    }
    forall cs | EncodedAll(cs) == s ensures ValidUtf8(s) {
      EncodedIsValid(cs);
    }
  }

  // ---------- white space ----------

  /** The characters with the Unicode property White_Space. */
  predicate White(c: Scalar) {
    || 9 <= c <= 13 || c == 0x20 || c == 0x85 || c == 0xA0 || c == 0x1680 || 0x2000 <= c <= 0x200A
    || c == 0x2028 || c == 0x2029 || c == 0x202F || c == 0x205F || c == 0x3000
  }

  lemma SpaceAtFront(c: Scalar, tail: Bytes)
    ensures SpaceWidth(Encoded(c) + tail) == if White(c) then |Encoded(c)| else 0
  {
    if c < 0x80 {
    } else if c < 0x800 {
    } else if c < 0x1_0000 {
      WideSpaces(c);
    }
  }

  lemma WideSpaces(c: Scalar)
    requires 0x800 <= c < 0x1_0000
    ensures IsWideSpace(0xE0 + c / 0x1000, 0x80 + c / 0x40 % 0x40, 0x80 + c % 0x40) <==> White(c)
  {
    var a, b, d := c / 0x1000, c / 0x40 % 0x40, c % 0x40;
    assert c == a * 0x1000 + b * 0x40 + d;
  }

  lemma SpaceAtEnd(front: Bytes, c: Scalar)
    ensures SpaceWidthAtEnd(front + Encoded(c)) == if White(c) then |Encoded(c)| else 0
  {
    if c < 0x80 {
    } else if c < 0x800 {
    } else if c < 0x1_0000 {
      WideSpaces(c);
    }
  }

  lemma {:induction false} EncodedAppend(a: seq<Scalar>, b: seq<Scalar>)
    ensures EncodedAll(a + b) == EncodedAll(a) + EncodedAll(b)
  {
    hide Encoded;
    if a == [] {
      assert a + b == b;
    } else {
      EncodedAppend(a[1..], b);
      assert (a + b)[1..] == a[1..] + b;
    }
  }

  ghost predicate AllWhite(cs: seq<Scalar>) { forall i :: 0 <= i < |cs| ==> White(cs[i]) }

  /** Text that trimming leaves alone. */
  ghost predicate Trim(cs: seq<Scalar>) { cs != [] ==> !White(cs[0]) && !White(cs[|cs| - 1]) }

  lemma {:induction false} TrimStartIs(lead: seq<Scalar>, mid: seq<Scalar>)
    requires AllWhite(lead) && (mid != [] ==> !White(mid[0]))
    ensures TrimStart(EncodedAll(lead) + EncodedAll(mid)) == EncodedAll(mid)
  {
    hide Encoded, SpaceWidth, White;
    if lead == [] {
      assert EncodedAll(lead) + EncodedAll(mid) == EncodedAll(mid);
      if mid == [] {
        NothingLeft();
      } else {
        SpaceAtFront(mid[0], EncodedAll(mid[1..]));
      }
    } else {
      TrimStartIs(lead[1..], mid);
      var tail := EncodedAll(lead[1..]) + EncodedAll(mid);
      assert EncodedAll(lead) + EncodedAll(mid) == Encoded(lead[0]) + tail;
      SpaceAtFront(lead[0], tail);
    }
  }

  lemma NothingLeft()
    ensures TrimStart([]) == [] && TrimEnd([]) == []
  {
  }

  lemma {:induction false} EncodedLast(cs: seq<Scalar>)
    requires cs != []
    ensures EncodedAll(cs) == EncodedAll(cs[..|cs| - 1]) + Encoded(cs[|cs| - 1])
  {
    hide Encoded;
    if |cs| > 1 {
      EncodedLast(cs[1..]);
      assert cs[1..][..|cs| - 2] == cs[..|cs| - 1][1..];
    }
  }

  lemma {:induction false} TrimEndIs(mid: seq<Scalar>, trail: seq<Scalar>)
    requires AllWhite(trail) && (mid != [] ==> !White(mid[|mid| - 1]))
    ensures TrimEnd(EncodedAll(mid) + EncodedAll(trail)) == EncodedAll(mid)
    decreases |trail|
  {
    hide Encoded, SpaceWidthAtEnd, White, EncodedAll;
    if trail == [] {
      EncodedNothing(trail);
      assert EncodedAll(mid) + EncodedAll(trail) == EncodedAll(mid);
      if mid == [] {
        EncodedNothing(mid);
        NothingLeft();
      } else {
        EncodedLast(mid);
        SpaceAtEnd(EncodedAll(mid[..|mid| - 1]), mid[|mid| - 1]);
      }
    } else {
      var last, front := trail[|trail| - 1], EncodedAll(mid) + EncodedAll(trail[..|trail| - 1]);
      TrimEndIs(mid, trail[..|trail| - 1]);
      EncodedLast(trail);
      assert EncodedAll(mid) + EncodedAll(trail) == front + Encoded(last);
      SpaceAtEnd(front, last);
      assert (front + Encoded(last))[..|front|] == front;
    }
  }

  lemma EncodedNothing(cs: seq<Scalar>)
    requires cs == []
    ensures EncodedAll(cs) == []
  {
  }

  /** Trimming takes the white space off either end and nothing else. */
  lemma TrimMeaning(lead: seq<Scalar>, mid: seq<Scalar>, trail: seq<Scalar>)
    requires AllWhite(lead) && AllWhite(trail) && Trim(mid) && (mid == [] ==> trail == [])
    ensures TrimEnd(TrimStart(EncodedAll(lead + mid + trail))) == EncodedAll(mid)
  {
    hide EncodedAll, White;
    EncodedAppend(lead + mid, trail);
    EncodedAppend(lead, mid);
    EncodedAppend(mid, trail);
    assert EncodedAll(lead) + EncodedAll(mid) + EncodedAll(trail)
        == EncodedAll(lead) + (EncodedAll(mid) + EncodedAll(trail));
    TrimStartIs(lead, mid + trail);
    TrimEndIs(mid, trail);
  }
}
