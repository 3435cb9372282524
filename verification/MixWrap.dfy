/**
 Why a device that counts rounds in 32 bits is not a node from 2^32 rounds on (engine.rs,
 `mix_rounds as u32`, against crates/meshhash-cpu/src/lib.rs): for every such number of rounds, and
 every version, two pads are constructed that come out the same of the node's mix and different of
 the device's, so the device is wrong about one of them.

 The pads are 2^40 bytes long and nearly everywhere hold a word D that a round puts back where it
 found it: with the state at the top bit alone, D, its partner at a fixed place and the round
 constants cancel. One pad has a second word E, with a partner of its own, at a place that the
 rounds first visit between the device's last round and the node's; that round turns E into D.
 */
module MixWrap {
  import opened Machine
  import opened Words
  import opened WordAlgebra
  import opened Mix
  import opened Node

  const LEN: nat := 0x100_0000_0000
  const BOUND: nat := 0x2_0000_0000

  /** The multipliers of the two directions' round numbers, and their inverses modulo the length. */
  const GF: u64 := 0x9E37_79B9_7F4A_7C15
  const GR: u64 := 0xC2B2_AE3D_27D4_EB4F
  const IF: nat := 0xE1_9937_733D
  const IR: nat := 0x78_168D_4BAF

  lemma Inverses()
    ensures GF * IF == 1 + 10046813238215265089 * LEN
    ensures GR * IR == 1 + 6581140581703359120 * LEN
  {
  }

  // ---------- addresses ----------

  lemma AndDouble(a: nat, m: nat, n: nat)
    ensures AndBits(a, 2 * m, n + 1) == 2 * AndBits(a / 2, m, n)
  {
  }

  lemma AddressIs(v: u64)
    ensures Address(v, LEN) == v % LEN - v % 8
  {
    hide AndBits;
    var m := 0x20_0000_0000 - 1;
    AndEightfold(v, m);
    AndLowAt37(v / 8);
    Eighths(v);
  }

  lemma AndEightfold(v: nat, m: nat)
    ensures AndBits(v, 8 * m, 64) == 8 * AndBits(v / 8, m, 61)
  {
    hide AndBits;
    AndDouble(v, 4 * m, 63);
    AndDouble(v / 2, 2 * m, 62);
    AndDouble(v / 4, m, 61);
    assert v / 2 / 2 == v / 4 && v / 4 / 2 == v / 8;
  }

  lemma Eighths(v: nat)
    ensures 8 * ((v / 8) % 0x20_0000_0000) == v % LEN - v % 8
  {
    var q, r := v / 8 / 0x20_0000_0000, (v / 8) % 0x20_0000_0000;
    DivModUnique(q, 8 * r + v % 8, LEN);
  }

  lemma AndLowAt37(a: nat)
    ensures AndBits(a, 0x20_0000_0000 - 1, 61) == a % 0x20_0000_0000
  {
    Pow2Values();
    AndLow(a, 37, 61);
  }

  /** Whole multiples of the length do not matter. */
  lemma SameResidue(x: nat, y: nat, k: nat)
    requires x == y + k * LEN
    ensures x % LEN == y % LEN && x % 8 == y % 8
  {
    DivModUnique(y / LEN + k, y % LEN, LEN);
    DivModUnique(y / 8 + k * 0x20_0000_0000, y % 8, 8);
  }

  /** An address: reduced, and cleared of its low three bits. */
  function Cleared(x: nat): (z: nat)
    ensures z % 8 == 0 && z + 8 <= LEN
  {
    SameResidue(x, x % LEN, x / LEN);
    x % LEN - x % 8
  }

  /** Where the round of number i goes when the state's address bits are zero. */
  function Hit(g: u64, i: nat): (z: nat)
    ensures z % 8 == 0 && z + 8 <= LEN
  {
    TimesNonNegative(i, g);
    Cleared(i * g)
  }

  lemma HitIs(g: u64, i: nat)
    requires i < TWO64
    ensures Address(Mul64(i, g), LEN) == Hit(g, i)
  {
    hide Address;
    AddressIs(Mul64(i, g));
    TimesNonNegative(i, g);
    WrappedResidue(i * g);
  }

  lemma WrappedResidue(x: nat)
    ensures Wrap64(x) % LEN == x % LEN && Wrap64(x) % 8 == x % 8
  {
    SameResidue(x, x % TWO64, x / TWO64 * 0x100_0000);
  }

  lemma ForwardHit(i: nat, total: nat)
    requires i < total && i < TWO64
    ensures FirstIndex(Forward, TOP, i, total, LEN) == Hit(GF, i)
  {
    hide Address, Xor, Mul64, Hit;
    HitIs(GF, i);
    TopUnseen(Mul64(i, GF));
  }

  /** The top bit is above every address. */
  lemma TopUnseen(u: u64)
    ensures Address(Xor(TOP, u), LEN) == Address(u, LEN) && Address(Xor(u, TOP), LEN) == Address(u, LEN)
  {
    hide Address, Xor;
    XorTop(u);
    AddressIs(Xor(TOP, u));
    AddressIs(u);
    if u < TOP {
      SameResidue(u + TOP, u, 0x80_0000);
    } else {
      SameResidue(u, u - TOP, 0x80_0000);
    }
  }

  lemma ReverseHit(i: nat, total: nat)
    requires i < total && total - 1 - i < TWO64
    ensures FirstIndex(Reverse, 0, i, total, LEN) == Hit(GR, total - 1 - i)
  {
    hide Address, Xor, Mul64, Hit;
    HitIs(GR, total - 1 - i);
    XorZero(Mul64(total - 1 - i, GR));
  }

  // ---------- what the rounds miss ----------

  /** The only round numbers, modulo the length, that can land z past a multiple of the length. */
  lemma Solve(g: u64, inv: nat, m: nat, i: nat, z: int)
    requires g * inv == 1 + m * LEN && (i * g - z) % LEN == 0
    ensures i % LEN == (inv * z) % LEN
  {
    var q := (i * g - z) / LEN;
    assert i * g - z == q * LEN;
    assert i * (g * inv) == inv * (z + q * LEN) by {
      assert i * g == z + q * LEN;
      assert i * (g * inv) == inv * (i * g);
    }
    var k := inv * q - i * m;
    assert i == inv * z + k * LEN by {
      assert i * (1 + m * LEN) == i + i * m * LEN;
      assert inv * (z + q * LEN) == inv * z + inv * q * LEN;
      assert k * LEN == inv * q * LEN - i * m * LEN;
    }
    Residues(i, inv * z, k);
  }

  lemma Residues(x: int, y: int, k: int)
    requires x == y + k * LEN
    ensures x % LEN == y % LEN
  {
    var d := x / LEN - y / LEN - k;
    assert d * LEN == y % LEN - x % LEN;
    MulGrows(d, LEN);
  }

  /** No round number from 1 to the bound is that one. */
  predicate Far(inv: nat, z: int) { (inv * z) % LEN == 0 || (inv * z) % LEN >= BOUND }

  predicate AllFar(inv: nat, z: int) {
    && Far(inv, z) && Far(inv, z + 1) && Far(inv, z + 2) && Far(inv, z + 3)
    && Far(inv, z + 4) && Far(inv, z + 5) && Far(inv, z + 6) && Far(inv, z + 7)
  }

  /** A round with a number below the bound, and not 0, misses a place whose eight bytes are all far. */
  lemma Misses(g: u64, inv: nat, m: nat, i: nat, place: nat)
    requires g * inv == 1 + m * LEN && 0 < i < BOUND && AllFar(inv, place)
    ensures Hit(g, i) != place
  {
    hide Far, Cleared, AllFar;
    if Hit(g, i) == place {
      TimesNonNegative(i, g);
      var t := LowBits(i * g);
      Solve(g, inv, m, i, place + t);
      EachFar(inv, place, t);
      FarAway(inv, place + t, i);
    }
  }

  lemma EachFar(inv: nat, z: int, t: nat)
    requires AllFar(inv, z) && t < 8
    ensures Far(inv, z + t)
  {
    hide Far;
  }

  lemma LowBits(x: nat) returns (t: nat)
    ensures t < 8 && (x - (Cleared(x) + t)) % LEN == 0
  {
    t := x % 8;
    assert x - (Cleared(x) + t) == x / LEN * LEN;
    Residues(x - (Cleared(x) + t), 0, x / LEN);
  }

  lemma FarAway(inv: nat, z: int, i: nat)
    requires Far(inv, z) && 0 < i < BOUND
    ensures i % LEN != (inv * z) % LEN
  {
  }

  /** Differences within a word, either way, are far too: two rounds below the bound go to different places. */
  predicate DifferencesFar(inv: nat) { AllFar(inv, 0) && AllFar(inv, -7) }

  lemma DifferentHits(g: u64, inv: nat, m: nat, i: nat, j: nat)
    requires g * inv == 1 + m * LEN && DifferencesFar(inv) && j < i < BOUND
    ensures Hit(g, i) != Hit(g, j)
  {
    hide Far, Cleared, AllFar;
    if Hit(g, i) == Hit(g, j) {
      TimesNonNegative(i, g);
      TimesNonNegative(j, g);
      var d := SameCleared(i * g, j * g);
      assert i * g - j * g == (i - j) * g;
      Solve(g, inv, m, i - j, d);
      if d >= 0 {
        EachFar(inv, 0, d);
      } else {
        EachFar(inv, -7, d + 7);
      }
      FarAway(inv, d, i - j);
    }
  }

  lemma SameCleared(x: nat, y: nat) returns (d: int)
    requires Cleared(x) == Cleared(y)
    ensures -7 <= d <= 7 && (x - y - d) % LEN == 0
  {
    d := x % 8 - y % 8;
    DifferenceOf(x, y, d);
  }

  lemma DifferenceOf(x: nat, y: nat, d: int)
    requires x % LEN == y % LEN + d
    ensures (x - y - d) % LEN == 0
  {
    var k := x / LEN - y / LEN;
    assert x == x / LEN * LEN + x % LEN && y == y / LEN * LEN + y % LEN;
    assert x - y - d == k * LEN;
    Residues(x - y - d, 0, k);
  }

  // ---------- the special places ----------

  const AT_TOP: nat := 0x1_0000
  const AT_D: nat := 0x85_37A2_BF10
  const AT_E: nat := 0x85_37A3_BF10
  const AT_BACK: nat := 0x4F_14DC_3A10
  const AT_LAST: nat := 0xFF_FFFF_FFF8

  predicate Special(z: int) { z == AT_TOP || z == AT_D || z == AT_E || z == AT_BACK || z == AT_LAST }

  /** One place further, the round number grows by the inverse. */
  function Onward(inv: nat, c: nat): nat { if c + inv >= LEN then c + inv - LEN else c + inv }

  predicate FarNumber(c: nat) { c == 0 || c >= BOUND }

  predicate EightFar(inv: nat, c0: nat) {
    var c1 := Onward(inv, c0);
    var c2 := Onward(inv, c1);
    var c3 := Onward(inv, c2);
    var c4 := Onward(inv, c3);
    var c5 := Onward(inv, c4);
    var c6 := Onward(inv, c5);
    var c7 := Onward(inv, c6);
    && FarNumber(c0) && FarNumber(c1) && FarNumber(c2) && FarNumber(c3)
    && FarNumber(c4) && FarNumber(c5) && FarNumber(c6) && FarNumber(c7)
  }

  lemma AllFarFrom(inv: nat, z: int, q: int, c: nat)
    requires inv < LEN && c < LEN && inv * z == q * LEN + c && EightFar(inv, c)
    ensures AllFar(inv, z)
  {
    Residues(inv * z, c, q);
    OnwardIs(inv, z, c);
    var c1 := Onward(inv, c);
    OnwardIs(inv, z + 1, c1);
    var c2 := Onward(inv, c1);
    OnwardIs(inv, z + 2, c2);
    var c3 := Onward(inv, c2);
    OnwardIs(inv, z + 3, c3);
    var c4 := Onward(inv, c3);
    OnwardIs(inv, z + 4, c4);
    var c5 := Onward(inv, c4);
    OnwardIs(inv, z + 5, c5);
    var c6 := Onward(inv, c5);
    OnwardIs(inv, z + 6, c6);
  }

  lemma OnwardIs(inv: nat, z: int, c: nat)
    requires inv < LEN && c == (inv * z) % LEN
    ensures Onward(inv, c) < LEN && Onward(inv, c) == (inv * (z + 1)) % LEN
  {
    var next := Onward(inv, c);
    assert inv * (z + 1) == inv * z + inv;
    var k := if c + inv >= LEN then 1 else 0;
    assert inv * z == inv * z / LEN * LEN + c;
    Residues(inv * (z + 1), next, inv * z / LEN + k);
  }

  lemma PlacesFar()
    ensures AllFar(IF, 0) && AllFar(IF, AT_TOP) && AllFar(IF, AT_D)
    ensures AllFar(IF, AT_E) && AllFar(IF, AT_BACK) && AllFar(IF, AT_LAST)
  {
    hide AllFar;
    AllFarFrom(IF, 0, 0, 0);
    AllFarFrom(IF, AT_TOP, 57753, 238156578816);
    AllFarFrom(IF, AT_D, 504216233244, 1047872124624);
    AllFarFrom(IF, AT_E, 504216290998, 186517075664);
    AllFarFrom(IF, AT_BACK, 299316684731, 321854047696);
    AllFarFrom(IF, AT_LAST, 968938189621, 1044587505176);
  }

  lemma PlacesFarBack()
    ensures AllFar(IR, AT_TOP) && AllFar(IR, AT_D) && AllFar(IR, AT_E) && AllFar(IR, AT_BACK) && AllFar(IR, AT_LAST)
  {
    hide AllFar;
    AllFarFrom(IR, AT_TOP, 30742, 606860148736);
    AllFarFrom(IR, AT_D, 268398794898, 1014988688368);
    AllFarFrom(IR, AT_E, 268398825641, 522337209328);
    AllFarFrom(IR, AT_BACK, 159328939010, 1052843598064);
    AllFarFrom(IR, AT_LAST, 515774434219, 271851037320);
  }

  lemma DifferencesAreFar()
    ensures DifferencesFar(IF) && DifferencesFar(IR)
  {
    hide AllFar;
    AllFarFrom(IF, 0, 0, 0);
    AllFarFrom(IF, -7, -7, 914014067029);
    AllFarFrom(IR, 0, 0, 0);
    AllFarFrom(IR, -7, -4, 787625471543);
  }

  /** Forward rounds 1, 2, ... below the bound go nowhere special, not to the first word, and nowhere twice. */
  lemma ForwardPlaces(i: nat)
    requires 0 < i < BOUND
    ensures Hit(GF, i) != 0 && !Special(Hit(GF, i))
    ensures forall j :: 0 < j < BOUND && j != i ==> Hit(GF, j) != Hit(GF, i)
  {
    hide AllFar, Hit, DifferencesFar;
    Inverses();
    PlacesFar();
    DifferencesAreFar();
    Misses(GF, IF, 10046813238215265089, i, 0);
    Misses(GF, IF, 10046813238215265089, i, AT_TOP);
    Misses(GF, IF, 10046813238215265089, i, AT_D);
    Misses(GF, IF, 10046813238215265089, i, AT_E);
    Misses(GF, IF, 10046813238215265089, i, AT_BACK);
    Misses(GF, IF, 10046813238215265089, i, AT_LAST);
    forall j | 0 < j < BOUND && j != i ensures Hit(GF, j) != Hit(GF, i) {
      DifferentHits(GF, IF, 10046813238215265089, if j < i then i else j, if j < i then j else i);
    }
  }

  /** The same of reverse rounds, whose number 0 goes to the first word. */
  lemma ReversePlaces(i: nat)
    requires i < BOUND
    ensures !Special(Hit(GR, i))
    ensures forall j :: 0 <= j < BOUND && j != i ==> Hit(GR, j) != Hit(GR, i)
  {
    hide AllFar, DifferencesFar;
    Inverses();
    PlacesFarBack();
    DifferencesAreFar();
    if i == 0 {
      assert Hit(GR, 0) == 0;
    } else {
      hide Hit;
      Misses(GR, IR, 6581140581703359120, i, AT_TOP);
      Misses(GR, IR, 6581140581703359120, i, AT_D);
      Misses(GR, IR, 6581140581703359120, i, AT_E);
      Misses(GR, IR, 6581140581703359120, i, AT_BACK);
      Misses(GR, IR, 6581140581703359120, i, AT_LAST);
    }
    hide Hit;
    forall j | 0 <= j < BOUND && j != i ensures Hit(GR, j) != Hit(GR, i) {
      DifferentHits(GR, IR, 6581140581703359120, if j < i then i else j, if j < i then j else i);
    }
  }

  // ---------- the words ----------

  /**
   The word a forward round leaves alone, the marked one it turns into that, and the one a reverse
   round leaves behind.
   */
  const D: u64 := 0x5F89_E29B_8742_9BD1
  const E: u64 := 0xDF89_E29B_8742_9BD1
  const D_BACK: u64 := 0x7A14_3588_3D4D_519D

  /** With this sum of the two words read, a forward round at the top state writes D. */
  function Whole(): u64 { Rotr(E, 9) }

  function Partner(a: u64): u64 { Sub64(Whole(), a) }

  function BackPartner(): u64 { Xor(Rotr(Mul64(D, 0x94D0_49BB_1331_11EB), 1), D_BACK) }

  lemma PartnerGivesD(a: u64)
    ensures NewWord(Forward, a, Partner(a), TOP) == D && NextState(Forward, TOP, D) == TOP
  {
    hide Rotl, Xor;
    assert Add64(a, Partner(a)) == Whole();
    RotateBack9(E);
    assert Mul64(TOP, 0xD6E8_FEB8_6659_FD93) == TOP;
    XorTop(E);
  }

  lemma BackPartnerGives()
    ensures NewWord(Reverse, D, BackPartner(), 0) == D_BACK && NextState(Reverse, 0, D_BACK) == 0
  {
    hide Rotl, Xor;
    XorCancel(Rotr(Mul64(D, 0x94D0_49BB_1331_11EB), 1), D_BACK);
    assert Add64(BackPartner(), 0) == BackPartner();
  }

  /** Where a round at the top state reads its second word. */
  lemma SecondPlaces()
    ensures SecondIndex(Forward, TOP, TOP, LEN) == AT_TOP
    ensures SecondIndex(Forward, TOP, D, LEN) == AT_D
    ensures SecondIndex(Forward, TOP, E, LEN) == AT_E
  {
    hide Rotl, Xor, Address, SecondIndex;
    SecondPlace(TOP, 0x10000, 0x10000, 0x10000, 0x0, AT_TOP);
    SecondPlace(D, 0xbf13, 0xbf13, 0xc5370e8537a2bf13, 0xc5370e, AT_D);
    SecondPlace(E, 0x1bf13, 0x1bf13, 0xc5370e8537a3bf13, 0xc5370e, AT_E);
  }

  /** The same for one word, given the quotients that its rotation and its address leave. */
  lemma SecondPlace(a: u64, high: nat, over: nat, rotated: u64, k: nat, place: nat)
    requires high * 0x8000_0000_0000 <= a < high * 0x8000_0000_0000 + 0x8000_0000_0000
    requires 0x2_0000 * a + high == over * TWO64 + rotated
    requires rotated - rotated % 8 == k * LEN + place && 0 <= place && place + 8 <= LEN && place % 8 == 0
    ensures SecondIndex(Forward, TOP, a, LEN) == place
  {
    hide Rotl, Xor, Address;
    RotlBy17(a);
    DivModUnique(high, a - high * 0x8000_0000_0000, 0x8000_0000_0000);
    DivModUnique(over, rotated, TWO64);
    TopUnseen(rotated);
    AddressAt(rotated, k, place);
  }

  lemma AddressAt(v: u64, k: nat, place: nat)
    requires v - v % 8 == k * LEN + place && place + 8 <= LEN && place % 8 == 0
    ensures Address(v, LEN) == place
  {
    hide Address;
    AddressIs(v);
    DivModUnique(k, place + v % 8, LEN);
  }

  lemma SecondPlaceBack()
    ensures SecondIndex(Reverse, 0, D, LEN) == AT_BACK
  {
    hide Rotl, Xor, Address;
    RotrBy13(D);
    assert D / 0x2000 == 0x2fc4f14dc3a14;
    DivModUnique(0x2fc4f14dc3a14, 0xde8afc4f14dc3a14, TWO64);
    RotlIs(0, 7);
    XorZero(0xde8afc4f14dc3a14);
    AddressAt(0xde8afc4f14dc3a14, 0xde8afc, AT_BACK);
  }

  // ---------- the pads ----------

  function WordAt(z: nat): u64 {
    if z == 0 then TOP
    else if z == AT_TOP then Partner(TOP)
    else if z == AT_D then Partner(D)
    else if z == AT_E then Partner(E)
    else if z == AT_BACK then BackPartner()
    else if z == AT_LAST then 0
    else D
  }

  function Base(): (pad: Bytes)
    ensures |pad| == LEN
  {
    seq(LEN, x requires 0 <= x < LEN => BaseByte(x))
  }

  function BaseByte(x: nat): byte {
    WordStart(x);
    PutU64(WordAt(x - x % 8))[x % 8]
  }

  lemma WordStart(x: nat)
    ensures 0 <= x % 8 < 8 && x - x % 8 >= 0
  {
  }

  predicate Place(z: nat) { z % 8 == 0 && z + 8 <= LEN }

  predicate Ordinary(z: nat) { Place(z) && z != 0 && !Special(z) }

  lemma LoadBase(z: nat)
    requires Place(z)
    ensures Load(Base(), z) == WordAt(z)
  {
    hide PutU64, GetU64, WordAt;
    var s, w := Base()[z..z + 8], PutU64(WordAt(z));
    forall k | 0 <= k < 8 ensures s[k] == w[k] {
      assert s[k] == Base()[z + k];
    }
    assert s == w;
    U64RoundTrip(WordAt(z));
  }

  /** The base after any forward rounds, and a pad marked at x, before and after. */
  function Settled(): (pad: Bytes) ensures |pad| == LEN { Store(Base(), 0, D) }

  function Marked(pad: Bytes, x: nat): (m: Bytes)
    requires |pad| == LEN && Place(x)
    ensures |m| == LEN
  {
    Store(pad, x, E)
  }

  lemma Apart(x: nat, z: nat)
    requires Place(x) && Place(z) && x != z
    ensures x + 8 <= z || z + 8 <= x
  {
  }

  lemma SettledLoads(z: nat)
    requires Place(z)
    ensures Load(Settled(), z) == if z == 0 then D else WordAt(z)
  {
    hide Load, Store, WordAt, Base;
    LoadBase(z);
    if z == 0 {
      LoadOfStore(Base(), 0, D);
    } else {
      Apart(0, z);
      LoadElsewhere(Base(), 0, D, z);
    }
  }

  lemma MarkedLoads(pad: Bytes, x: nat, z: nat)
    requires |pad| == LEN && Place(x) && Place(z)
    ensures Load(Marked(pad, x), z) == if z == x then E else Load(pad, z)
  {
    hide Load, Store;
    if z == x {
      LoadOfStore(pad, x, E);
    } else {
      Apart(x, z);
      LoadElsewhere(pad, x, E, z);
    }
  }

  // ---------- forward ----------

  /** A forward round at the top state that reads a word with its partner in place writes D there. */
  lemma ForwardStep(pad: Bytes, i: nat, total: nat, a: u64, second: nat)
    requires |pad| == LEN && i < total && i < TWO64
    requires Place(second) && SecondIndex(Forward, TOP, a, LEN) == second
    requires Load(pad, Hit(GF, i)) == a && Load(pad, second) == Partner(a)
    ensures Round(Forward, Running(pad, TOP), i, total) == Running(Store(pad, Hit(GF, i), D), TOP)
  {
    hide FirstIndex, SecondIndex, NewWord, NextState, Load, Store, Hit, Partner;
    ForwardHit(i, total);
    PartnerGivesD(a);
  }

  /** A round past the first at an ordinary place with D in it changes nothing. */
  lemma Unchanged(pad: Bytes, i: nat, total: nat)
    requires |pad| == LEN && i < total && i < TWO64
    requires Load(pad, Hit(GF, i)) == D && Load(pad, AT_D) == Partner(D)
    ensures Round(Forward, Running(pad, TOP), i, total) == Running(pad, TOP)
  {
    hide Round, Load, Store, Hit, Partner, SecondIndex;
    SecondPlaces();
    ForwardStep(pad, i, total, D, AT_D);
    StoreSame(pad, Hit(GF, i));
  }

  lemma FirstRound(pad: Bytes, total: nat)
    requires |pad| == LEN && total > 0 && Load(pad, 0) == TOP && Load(pad, AT_TOP) == Partner(TOP)
    ensures Round(Forward, Running(pad, TOP), 0, total) == Running(Store(pad, 0, D), TOP)
  {
    hide Round, Load, Store, Partner, SecondIndex;
    assert Hit(GF, 0) == 0;
    SecondPlaces();
    ForwardStep(pad, 0, total, TOP, AT_TOP);
  }

  lemma {:induction false} BaseRounds(k: nat, total: nat)
    requires k <= total && k <= BOUND
    ensures Rounds(Forward, Running(Base(), TOP), 0, k, total) == Running(if k == 0 then Base() else Settled(), TOP)
  {
    hide Round, Load, Store, Partner, Base, Hit;
    if k > 0 {
      BaseRounds(k - 1, total);
      if k == 1 {
        LoadBase(0);
        LoadBase(AT_TOP);
        FirstRound(Base(), total);
      } else {
        ForwardPlaces(k - 1);
        SettledLoads(Hit(GF, k - 1));
        SettledLoads(AT_D);
        Unchanged(Settled(), k - 1, total);
      }
    }
  }

  /** A pad marked where round i goes keeps its mark through the rounds before that one. */
  lemma {:induction false} MarkedRounds(i: nat, k: nat, total: nat)
    requires 0 < i < BOUND && k <= i && k <= total
    ensures Rounds(Forward, Running(Marked(Base(), Hit(GF, i)), TOP), 0, k, total)
         == Running(Marked(if k == 0 then Base() else Settled(), Hit(GF, i)), TOP)
  {
    hide Round, Load, Store, Partner, Base, Hit, Marked, Settled;
    var x := Hit(GF, i);
    if k > 0 {
      MarkedRounds(i, k - 1, total);
      ForwardPlaces(i);
      if k == 1 {
        LoadBase(0);
        LoadBase(AT_TOP);
        MarkedLoads(Base(), x, 0);
        MarkedLoads(Base(), x, AT_TOP);
        FirstRound(Marked(Base(), x), total);
        MarkThenSettle(x);
      } else {
        var z := Hit(GF, k - 1);
        ForwardPlaces(k - 1);
        SettledLoads(z);
        SettledLoads(AT_D);
        MarkedLoads(Settled(), x, z);
        MarkedLoads(Settled(), x, AT_D);
        Unchanged(Marked(Settled(), x), k - 1, total);
      }
    }
  }

  lemma MarkThenSettle(x: nat)
    requires Place(x) && x != 0
    ensures Store(Marked(Base(), x), 0, D) == Marked(Settled(), x)
  {
    hide Store, Base;
    Apart(0, x);
    StoresCommute(Base(), x, E, 0, D);
  }

  /** Round i takes the mark away. */
  lemma MarkGone(i: nat, total: nat)
    requires 0 < i < BOUND && i < total
    ensures Rounds(Forward, Running(Marked(Base(), Hit(GF, i)), TOP), 0, i + 1, total)
         == Rounds(Forward, Running(Base(), TOP), 0, i + 1, total)
  {
    hide Round, Load, Store, Partner, Base, Hit, Settled, SecondIndex;
    var x := Hit(GF, i);
    MarkedRounds(i, i, total);
    BaseRounds(i + 1, total);
    ForwardPlaces(i);
    SettledLoads(x);
    SettledLoads(AT_E);
    MarkedLoads(Settled(), x, x);
    MarkedLoads(Settled(), x, AT_E);
    SecondPlaces();
    ForwardStep(Marked(Settled(), x), i, total, E, AT_E);
    StoreTwice(Settled(), x, E, D);
    StoreSame(Settled(), x);
  }

  /** From there on the marked pad and the base have the same forward pass. */
  lemma SamePass(i: nat, total: nat)
    requires 0 < i < BOUND && i < total
    ensures Pass(Forward, Marked(Base(), Hit(GF, i)), total) == Pass(Forward, Base(), total)
  {
    hide Rounds, Load, Store, Base, Hit, Marked;
    FirstStates(i);
    MarkGone(i, total);
    RoundsCompose(Forward, Running(Marked(Base(), Hit(GF, i)), TOP), 0, i + 1, total - i - 1, total);
    RoundsCompose(Forward, Running(Base(), TOP), 0, i + 1, total - i - 1, total);
  }

  lemma FirstStates(i: nat)
    requires 0 < i < BOUND
    ensures FirstState(Forward, Base()) == TOP && FirstState(Forward, Marked(Base(), Hit(GF, i))) == TOP
  {
    hide Load, Store, Base, Hit, Marked;
    ForwardPlaces(i);
    LoadBase(0);
    MarkedLoads(Base(), Hit(GF, i), 0);
  }

  // ---------- in reverse ----------

  /** No reverse round of the last k of `total` goes to z. */
  ghost predicate Unvisited(z: nat, k: nat, total: nat) {
    forall j: nat :: total - k <= j < total ==> Hit(GR, j) != z
  }

  /** A pad that has D wherever its reverse rounds go: they all stay at state 0, and elsewhere nothing changes. */
  lemma {:induction false} ReverseTrace(pad: Bytes, total: nat, k: nat)
    requires |pad| == LEN && k <= total < BOUND
    requires Load(pad, AT_BACK) == BackPartner()
    requires forall j :: 0 <= j < total ==> Load(pad, Hit(GR, j)) == D
    ensures var r := Rounds(Reverse, Running(pad, 0), 0, k, total);
      && r.state == 0
      && forall z :: Place(z) && Unvisited(z, k, total) ==> Load(r.pad, z) == Load(pad, z)
  {
    hide Round, Load, Hit, BackPartner;
    if k > 0 {
      ReverseTrace(pad, total, k - 1);
      var before := Rounds(Reverse, Running(pad, 0), 0, k - 1, total);
      var j := total - k;
      ReversePlaces(j);
      assert Unvisited(Hit(GR, j), k - 1, total);
      BackPlaceUnvisited(k - 1, total);
      ReverseStep(before.pad, k - 1, total);
      forall z | Place(z) && Unvisited(z, k, total)
        ensures Load(Store(before.pad, Hit(GR, j), D_BACK), z) == Load(pad, z)
      {
        assert Unvisited(z, k - 1, total) && Hit(GR, j) != z;
        Apart(Hit(GR, j), z);
        LoadElsewhere(before.pad, Hit(GR, j), D_BACK, z);
      }
    }
  }

  lemma BackPlaceUnvisited(k: nat, total: nat)
    requires k <= total < BOUND
    ensures Unvisited(AT_BACK, k, total)
  {
    hide Hit;
    forall j: nat | total - k <= j < total ensures Hit(GR, j) != AT_BACK {
      ReversePlaces(j);
    }
  }

  lemma ReverseStep(pad: Bytes, i: nat, total: nat)
    requires |pad| == LEN && i < total < BOUND
    requires Load(pad, Hit(GR, total - 1 - i)) == D && Load(pad, AT_BACK) == BackPartner()
    ensures Round(Reverse, Running(pad, 0), i, total) == Running(Store(pad, Hit(GR, total - 1 - i), D_BACK), 0)
  {
    hide FirstIndex, SecondIndex, NewWord, NextState, Load, Store, Hit, BackPartner;
    ReverseHit(i, total);
    SecondPlaceBack();
    BackPartnerGives();
  }

  /** A mark that the reverse rounds do not visit outlasts them. */
  lemma MarkOutlasts(i: nat, total: nat)
    requires 0 < i < BOUND && 0 < total < BOUND && Unvisited(Hit(GF, i), total, total)
    ensures var x := Hit(GF, i);
      Load(Pass(Reverse, Marked(Settled(), x), total), x) == E && Load(Pass(Reverse, Settled(), total), x) == D
  {
    hide Rounds, Load, Hit, Marked, Settled, WordAt, BackPartner;
    var x := Hit(GF, i);
    ForwardPlaces(i);
    ReverseReady(i, total);
    ReverseTrace(Settled(), total, total);
    ReverseTrace(Marked(Settled(), x), total, total);
    OrdinaryIsD(x);
    MarkedLoads(Settled(), x, x);
  }

  lemma OrdinaryIsD(z: nat)
    requires Ordinary(z) || z == 0
    ensures Load(Settled(), z) == D
  {
    hide Load, Settled;
    SettledLoads(z);
  }

  lemma ReverseReady(i: nat, total: nat)
    requires 0 < i < BOUND && total < BOUND && Unvisited(Hit(GF, i), total, total)
    ensures var x := Hit(GF, i);
      && FirstState(Reverse, Settled()) == 0 && FirstState(Reverse, Marked(Settled(), x)) == 0
      && Load(Settled(), AT_BACK) == BackPartner() && Load(Marked(Settled(), x), AT_BACK) == BackPartner()
      && forall j :: 0 <= j < total ==> Load(Settled(), Hit(GR, j)) == D && Load(Marked(Settled(), x), Hit(GR, j)) == D
  {
    hide Load, Hit, Marked, Settled, BackPartner;
    var x := Hit(GF, i);
    ForwardPlaces(i);
    SettledLoads(AT_LAST);
    SettledLoads(AT_BACK);
    MarkedLoads(Settled(), x, AT_LAST);
    MarkedLoads(Settled(), x, AT_BACK);
    forall j | 0 <= j < total ensures Load(Settled(), Hit(GR, j)) == D && Load(Marked(Settled(), x), Hit(GR, j)) == D {
      ReversePlaces(j);
      OrdinaryIsD(Hit(GR, j));
      MarkedLoads(Settled(), x, Hit(GR, j));
    }
  }

  // ---------- a place for the mark ----------

  /** Two places that the fold samples, no reverse round visits, and these forward rounds visit. */
  const MARK_1: nat := 0x8D_0000_0000
  const MARK_2: nat := 0x15_0000_0000
  const ROUND_1: nat := 0xFE15_4031
  const ROUND_2: nat := 0x1_0000_0000

  lemma MarkPlaces()
    ensures Hit(GF, ROUND_1) == MARK_1 && Hit(GF, ROUND_2) == MARK_2
  {
    ClearedIs(ROUND_1 * GF, 44200560696463364, 605590388741);
    ClearedIs(ROUND_2 * GF, 44534042262981244, 90194313216);
  }

  lemma ClearedIs(x: nat, q: nat, r: nat)
    requires x == q * LEN + r && r < LEN
    ensures Cleared(x) == r - r % 8
  {
    DivModUnique(q, r, LEN);
    SameResidue(x, r, q);
  }

  lemma MarksUnvisited(total: nat)
    requires total < BOUND
    ensures Unvisited(MARK_1, total, total) && Unvisited(MARK_2, total, total)
  {
    hide AllFar, Hit;
    Inverses();
    AllFarFrom(IR, MARK_1, 284078887599, 425201762304);
    AllFarFrom(IR, MARK_2, 42309621557, 390842023936);
    ZeroHit();
    forall j: nat | j < total ensures Hit(GR, j) != MARK_1 && Hit(GR, j) != MARK_2 {
      if j > 0 {
        Misses(GR, IR, 6581140581703359120, j, MARK_1);
        Misses(GR, IR, 6581140581703359120, j, MARK_2);
      }
    }
  }

  lemma ZeroHit()
    ensures Hit(GR, 0) == 0
  {
  }

  /** The round that goes to the mark lies between the device's last round and the node's. */
  function MarkRound(r: nat): nat { if r <= ROUND_1 then ROUND_1 else ROUND_2 }

  lemma MarkRoundBetween(r: nat)
    requires r < WINDOW
    ensures 0 < MarkRound(r) < BOUND && r <= MarkRound(r) < r + WINDOW
    ensures Unvisited(Hit(GF, MarkRound(r)), r, r)
    ensures Hit(GF, MarkRound(r)) == MARK_1 || Hit(GF, MarkRound(r)) == MARK_2
  {
    hide Hit;
    MarkPlaces();
    MarksUnvisited(r);
  }

  // ---------- the result ----------

  /** The device mixes the marked pad and the base differently, and the mark shows where it was. */
  lemma DeviceTellsApart(i: nat, r: nat, version: nat)
    requires 0 < i < BOUND && r <= i && Unvisited(Hit(GF, i), r, r)
    ensures var x := Hit(GF, i);
      Load(Mixed(Marked(Base(), x), r, version), x) == E && Load(Mixed(Base(), r, version), x) == D
  {
    hide Rounds, Load, Hit, Marked, Settled, Base;
    var x := Hit(GF, i);
    ForwardPlaces(i);
    FirstStates(i);
    MarkedRounds(i, r, r);
    BaseRounds(r, r);
    MarkShows(x);
    if r == 0 {
      NoReverseRounds(Base());
      NoReverseRounds(Marked(Base(), x));
    } else {
      MarkOutlasts(i, r);
    }
  }

  lemma MarkShows(x: nat)
    requires Ordinary(x)
    ensures Load(Marked(Base(), x), x) == E && Load(Base(), x) == D
    ensures Load(Marked(Settled(), x), x) == E && Load(Settled(), x) == D
  {
    hide Load, Base, Marked, Settled;
    LoadBase(x);
    MarkedLoads(Base(), x, x);
    OrdinaryIsD(x);
    MarkedLoads(Settled(), x, x);
  }

  lemma NoReverseRounds(pad: Bytes)
    requires PadSize(|pad|)
    ensures Pass(Reverse, pad, 0) == pad
  {
  }

  /** The two pads the device is tried on, and what a node and the device make of them. */
  lemma TwoPads(mixRounds: nat, version: nat) returns (marked: Bytes, x: nat)
    requires mixRounds >= WINDOW
    ensures |marked| == LEN && (x == MARK_1 || x == MARK_2)
    ensures Mixed(marked, mixRounds, version) == Mixed(Base(), mixRounds, version)
    ensures Load(Mixed(marked, Truncated(mixRounds), version), x) == E
    ensures Load(Mixed(Base(), Truncated(mixRounds), version), x) == D
  {
    hide Pass, Hit, Marked, Base, Load, MarkRound;
    var r: nat := Truncated(mixRounds);
    WholeWindows(mixRounds);
    MarkRoundBetween(r);
    var i := MarkRound(r);
    x := Hit(GF, i);
    marked := Marked(Base(), x);
    SamePass(i, mixRounds);
    DeviceTellsApart(i, r, version);
  }

  /**
   The device mixes every pad as the node does just when there are fewer than 2^32 rounds, in every
   version.
   */
  lemma DeviceMixesAlikeIff(mixRounds: nat, version: nat)
    ensures (forall pad: Bytes :: PadSize(|pad|) ==>
               Mixed(pad, Truncated(mixRounds), version) == Mixed(pad, mixRounds, version))
            <==> mixRounds < WINDOW
  {
    hide Mixed, Truncated;
    if mixRounds >= WINDOW {
      var pad := WrongPad(mixRounds, version);
    } else {
      SmallTruncated(mixRounds);
    }
  }

  lemma SmallTruncated(x: nat)
    requires x < WINDOW
    ensures Truncated(x) == x
  {
  }

  lemma WrongPad(mixRounds: nat, version: nat) returns (pad: Bytes)
    requires mixRounds >= WINDOW
    ensures PadSize(|pad|) && Mixed(pad, Truncated(mixRounds), version) != Mixed(pad, mixRounds, version)
  {
    hide Mixed, Base, Load, Truncated;
    var marked, x := TwoPads(mixRounds, version);
    pad := if Mixed(Base(), Truncated(mixRounds), version) != Mixed(Base(), mixRounds, version) then Base() else marked;
  }

  /** At 2^32 rounds the device mixes nothing at all. */
  lemma UnmixedAtTwoTo32(pad: Bytes, version: nat)
    requires PadSize(|pad|)
    ensures Mixed(pad, Truncated(WINDOW), version) == pad
  {
  }

  lemma WholeWindows(x: nat)
    requires x >= WINDOW
    ensures Truncated(x) < WINDOW && x >= Truncated(x) + WINDOW
  {
  }
}
