/**
 The rounds of the scratchpad mix in plain arithmetic (crates/meshhash-cpu/src/lib.rs,
 `mix_scratchpad_in_place`; apps/mesh-miner-gpu/cuda/meshhash_mix.cu, src/opencl_mix.rs), on pads of a
 power-of-two length: rotations are products, quotients and remainders, addresses are remainders.
 Exclusive or alone is left as it is; `Bits.BitwiseMeaning` says what it does.
 */
module MixMeaning {
  import opened Machine
  import opened Words
  import opened WordAlgebra
  import opened Mix

  /** The word turned up by n bits, what leaves at the top coming in at the bottom. */
  function Turned(x: nat, n: nat): (r: u64)
    requires 1 <= n <= 63
  {
    Pow2Positive(64 - n);
    ShiftLeftMul(x, n);
    (x * Pow2(n) + x / Pow2(64 - n)) % 0x1_0000_0000_0000_0000
  }

  /** The word modulo 2^k with its low three bits cleared. */
  function Place(v: nat, k: nat): (x: nat)
    requires 3 <= k <= 63
    ensures x % 8 == 0 && x + 8 <= Pow2(k)
  {
    Pow2Positive(k);
    PlaceFits(v, k);
    v % Pow2(k) - v % 8
  }

  lemma PowEight(k: nat)
    requires 3 <= k <= 63
    ensures Pow2(k) == 8 * Pow2(k - 3) && Pow2(k - 3) > 0 && 8 <= Pow2(k) < TWO64
  {
    assert Pow2(3) == 8 by { assert Pow2(1) == 2 && Pow2(2) == 4; }
    hide Pow2, ShiftLeft;
    Pow2Sum(k - 3, 3);
    Pow2Positive(k - 3);
    Pow2Sum(k, 64 - k);
    Pow2Positive(64 - k);
    Pow2Values();
    PowTwice(k);
  }

  lemma PowTwice(k: nat)
    requires k <= 63 && Pow2(k) * Pow2(64 - k) == TWO64 && Pow2(64 - k) > 0
    ensures Pow2(k) < TWO64
  {
    assert Pow2(64 - k) == 2 * Pow2(63 - k);
    Pow2Positive(63 - k);
    hide Pow2;
    assert Pow2(k) * Pow2(64 - k) >= Pow2(k) * 2;
  }

  lemma Eights(v: nat, e: nat)
    requires e > 0
    ensures v % (8 * e) == 8 * ((v / 8) % e) + v % 8
  {
    var q, r := v / 8 / e, (v / 8) % e;
    assert v == (v / 8) * 8 + v % 8 && v / 8 == q * e + r;
    assert v == q * (8 * e) + (8 * r + v % 8);
    DivModUnique(q, 8 * r + v % 8, 8 * e);
  }

  lemma PlaceFits(v: nat, k: nat)
    requires 3 <= k <= 63
    ensures Pow2(k) > 0 && 0 <= v % Pow2(k) - v % 8
    ensures (v % Pow2(k) - v % 8) % 8 == 0 && v % Pow2(k) - v % 8 + 8 <= Pow2(k)
    ensures Pow2(k - 3) > 0 && v % Pow2(k) - v % 8 == 8 * ((v / 8) % Pow2(k - 3))
  {
    hide Pow2;
    PowEight(k);
    Eights(v, Pow2(k - 3));
  }

  lemma AndEight(v: nat, m: nat)
    ensures AndBits(v, 8 * m, 64) == 8 * AndBits(v / 8, m, 61)
  {
    hide AndBits;
    AndTwice(v, 4 * m, 63);
    AndTwice(v / 2, 2 * m, 62);
    AndTwice(v / 4, m, 61);
    assert v / 2 / 2 == v / 4 && v / 4 / 2 == v / 8;
  }

  lemma AndTwice(a: nat, m: nat, n: nat)
    ensures AndBits(a, 2 * m, n + 1) == 2 * AndBits(a / 2, m, n)
  {
  }

  /** On a pad of 2^k bytes the masked address is the word's remainder. */
  lemma AddressIsPlace(v: u64, k: nat)
    requires 3 <= k <= 63
    ensures 8 <= Pow2(k) < TWO64 && Address(v, Pow2(k)) == Place(v, k)
  {
    hide AndBits, Pow2, ShiftLeft;
    PowEight(k);
    var e := Pow2(k - 3);
    AndEight(v, e - 1);
    LowMask(v / 8, k - 3);
    PlaceFits(v, k);
    assert Pow2(k) - 8 == 8 * (e - 1);
  }

  lemma LowMask(a: nat, j: nat)
    requires j <= 60
    ensures Pow2(j) > 0 && AndBits(a, Pow2(j) - 1, 61) == a % Pow2(j)
  {
    AndLow(a, j, 61);
  }

  lemma RotlIsTurned(x: u64, n: nat)
    requires 1 <= n <= 63
    ensures Rotl(x, n) == Turned(x, n) && Rotr(x, n) == Turned(x, 64 - n)
  {
    hide Rotl, Pow2;
    RotlIs(x, n);
    RotlIs(x, 64 - n);
  }

  // ---------- where the rounds go ----------

  /**
   The second place of a round, for every state, word and pad of 2^k bytes: forward, the word turned up by
   17 and the state; in reverse, the word turned down by 13 and the state turned up by 7.
   */
  lemma SecondPlaces(state: u64, a: u64, k: nat)
    requires 3 <= k <= 63
    ensures 8 <= Pow2(k) < TWO64
    ensures SecondIndex(Forward, state, a, Pow2(k))
         == Place(Xor((a * 0x2_0000 + a / 0x8000_0000_0000) % TWO64, state), k)
    ensures SecondIndex(Reverse, state, a, Pow2(k))
         == Place(Xor((a * 0x8_0000_0000_0000 + a / 0x2000) % TWO64,
                      (state * 0x80 + state / 0x200_0000_0000_0000) % TWO64), k)
  {
    hide Pow2, Rotl, Rotr, Address, Xor;
    RotlBy17(a);
    RotrBy13(a);
    RotlBy7(state);
    AddressIsPlace(Xor(Rotl(a, 17), state), k);
    AddressIsPlace(Xor(Rotr(a, 13), Rotl(state, 7)), k);
  }

  lemma RotlBy7(x: u64)
    ensures Rotl(x, 7) == (x * 0x80 + x / 0x200_0000_0000_0000) % TWO64
  {
    hide Rotl, Pow2;
    RotlIs(x, 7);
    MorePowers();
  }

  lemma MorePowers()
    ensures Pow2(7) == 0x80 && Pow2(57) == 0x200_0000_0000_0000
  {
    assert Pow2(7) == 128 by { assert Pow2(1) == 2 && Pow2(3) == 8 && Pow2(5) == 32; }
    assert Pow2(2) == 4 by { assert Pow2(1) == 2; }
    hide Pow2, ShiftLeft;
    Pow2Values();
    Pow2Sum(55, 2);
  }

  /** The first place: the state and the round's number times the direction's constant; reverse counts down. */
  lemma FirstPlaces(state: u64, i: nat, total: nat, k: nat)
    requires 3 <= k <= 63 && i < total
    ensures 8 <= Pow2(k) < TWO64 && i * 0x9E37_79B9_7F4A_7C15 >= 0 && (total - 1 - i) * 0xC2B2_AE3D_27D4_EB4F >= 0
    ensures FirstIndex(Forward, state, i, total, Pow2(k))
         == Place(Xor(state, (i * 0x9E37_79B9_7F4A_7C15) % TWO64), k)
    ensures FirstIndex(Reverse, state, i, total, Pow2(k))
         == Place(Xor(state, ((total - 1 - i) * 0xC2B2_AE3D_27D4_EB4F) % TWO64), k)
  {
    hide Pow2, Address, Xor;
    ProductOfWrapped(i, 0x9E37_79B9_7F4A_7C15);
    ProductOfWrapped(total - 1 - i, 0xC2B2_AE3D_27D4_EB4F);
    AddressIsPlace(Xor(state, Mul64(Wrap64(i), 0x9E37_79B9_7F4A_7C15)), k);
    AddressIsPlace(Xor(state, Mul64(Wrap64(total - 1 - i), 0xC2B2_AE3D_27D4_EB4F)), k);
  }

  lemma ProductOfWrapped(i: nat, g: u64)
    ensures i * g >= 0 && Mul64(Wrap64(i), g) == (i * g) % TWO64
  {
    var q, r := i / TWO64, i % TWO64;
    assert i == q * TWO64 + r;
    assert i * g == (q * g) * TWO64 + r * g by { assert i * g == q * TWO64 * g + r * g; }
    TimesNonNegative(r, g);
    TimesNonNegative(q, g);
    var p := r * g;
    assert i * g == (q * g + p / TWO64) * TWO64 + p % TWO64;
    DivModUnique(q * g + p / TWO64, p % TWO64, TWO64);
  }

  // ---------- which states lead to the same place ----------

  lemma {:induction false} XorShorter(a: nat, b: nat, j: nat, n: nat)
    requires j <= n
    ensures Pow2(j) > 0 && XorBits(a, b, n) % Pow2(j) == XorBits(a, b, j)
  {
    if j > 0 {
      XorShorter(a / 2, b / 2, j - 1, n - 1);
      hide XorBits;
      HalfRemainder(XorBits(a, b, n), Pow2(j - 1));
      XorHalf(a, b, n - 1);
      XorHalf(a, b, j - 1);
    }
  }

  lemma XorEighth(a: nat, b: nat, n: nat)
    ensures XorBits(a, b, n + 3) / 8 == XorBits(a / 8, b / 8, n)
  {
    hide XorBits;
    XorHalf(a, b, n + 2);
    XorHalf(a / 2, b / 2, n + 1);
    XorHalf(a / 4, b / 4, n);
    assert a / 2 / 2 == a / 4 && a / 4 / 2 == a / 8 && b / 2 / 2 == b / 4 && b / 4 / 2 == b / 8;
  }

  lemma XorHalf(a: nat, b: nat, n: nat)
    ensures XorBits(a, b, n + 1) / 2 == XorBits(a / 2, b / 2, n)
    ensures XorBits(a, b, n + 1) % 2 == if a % 2 == b % 2 then 0 else 1
  {
  }

  lemma {:induction false} XorLowOnly(a: nat, b: nat, n: nat)
    ensures Pow2(n) > 0 && XorBits(a, b % Pow2(n), n) == XorBits(a, b, n)
  {
    Pow2Positive(n);
    if n > 0 {
      XorLowOnly(a / 2, b / 2, n - 1);
      HalfRemainder(b, Pow2(n - 1));
    }
  }

  /** With one side fixed, the places of two exclusive ors agree just when the other sides do in bits 3..k-1. */
  lemma SamePlaceIff(u: u64, v: u64, w: u64, k: nat)
    requires 3 <= k <= 63
    ensures Pow2(k) > 0
    ensures Place(Xor(u, v), k) == Place(Xor(u, w), k) <==> v % Pow2(k) / 8 == w % Pow2(k) / 8
  {
    hide Pow2, ShiftLeft, XorBits, Xor;
    PowEight(k);
    XorPlace(u, v, k);
    XorPlace(u, w, k);
    var e := Pow2(k - 3);
    MiddleBits(v, k);
    MiddleBits(w, k);
    XorLowOnly(u / 8, v / 8, k - 3);
    XorLowOnly(u / 8, w / 8, k - 3);
    CancelLow(u / 8, v / 8 % e, k - 3);
    CancelLow(u / 8, w / 8 % e, k - 3);
  }

  lemma CancelLow(a: nat, b: nat, n: nat)
    requires b < Pow2(n)
    ensures XorBits(a, XorBits(a, b, n), n) == b
  {
    XorBitsCancel(a, b, n);
  }

  lemma MiddleBits(v: nat, k: nat)
    requires 3 <= k <= 63
    ensures Pow2(k) > 0 && Pow2(k - 3) > 0 && v % Pow2(k) / 8 == v / 8 % Pow2(k - 3)
  {
    hide Pow2;
    PowEight(k);
    Eights(v, Pow2(k - 3));
  }

  lemma XorPlace(u: u64, v: u64, k: nat)
    requires 3 <= k <= 63
    ensures Place(Xor(u, v), k) == 8 * XorBits(u / 8, v / 8, k - 3)
  {
    hide Pow2, ShiftLeft, XorBits;
    Pow2Values();
    XorWhole(u, v);
    PlaceFits(Xor(u, v), k);
    XorEighth(u, v, 61);
    XorShorter(u / 8, v / 8, k - 3, 61);
  }

  lemma XorWhole(u: u64, v: u64)
    ensures Xor(u, v) == XorBits(u, v, 64)
  {
    hide XorBits;
    Pow2Values();
    XorBound(u, v, 64);
  }

  /**
   Two states lead the same word to the same second place just when they agree there: forward in their own
   bits 3..k-1, in reverse in those bits once they are turned up by 7.
   */
  lemma StatesMeetIff(a: u64, s: u64, t: u64, k: nat)
    requires 3 <= k <= 63
    ensures 8 <= Pow2(k) < TWO64
    ensures SecondIndex(Forward, s, a, Pow2(k)) == SecondIndex(Forward, t, a, Pow2(k))
      <==> s % Pow2(k) / 8 == t % Pow2(k) / 8
    ensures SecondIndex(Reverse, s, a, Pow2(k)) == SecondIndex(Reverse, t, a, Pow2(k))
      <==> Turned(s, 7) % Pow2(k) / 8 == Turned(t, 7) % Pow2(k) / 8
  {
    hide Pow2, Xor, Turned;
    TurnedBy7(s);
    TurnedBy7(t);
    SecondPlaces(s, a, k);
    SecondPlaces(t, a, k);
    SamePlaceIff((a * 0x2_0000 + a / 0x8000_0000_0000) % TWO64, s, t, k);
    SamePlaceIff((a * 0x8_0000_0000_0000 + a / 0x2000) % TWO64, Turned(s, 7), Turned(t, 7), k);
  }

  lemma TurnedBy7(x: u64)
    ensures Turned(x, 7) == (x * 0x80 + x / 0x200_0000_0000_0000) % TWO64
  {
    hide Pow2;
    MorePowers();
  }

  // ---------- whole rounds ----------

  /** The word a forward round writes: the sum, turned up as the state says, and the state times a constant. */
  lemma ForwardWordIs(a: u64, b: u64, state: u64)
    ensures state * 0xD6E8_FEB8_6659_FD93 >= 0
    ensures ForwardWord(a, b, state)
         == Xor(Turned((a + b) % TWO64, 1 + state % 63), (state * 0xD6E8_FEB8_6659_FD93) % TWO64)
  {
    hide Xor, Turned, Rotl;
    RotlIsTurned(Add64(a, b), state % 63 + 1);
    TimesNonNegative(state, 0xD6E8_FEB8_6659_FD93);
  }

  /** In reverse the product comes before the rotation, which is downwards, and the state is added to the partner. */
  lemma ReverseWordIs(a: u64, b: u64, state: u64)
    ensures a * 0x94D0_49BB_1331_11EB >= 0
    ensures ReverseWord(a, b, state)
         == Xor(Turned((a * 0x94D0_49BB_1331_11EB) % TWO64, 63 - state % 63), (b + state) % TWO64)
  {
    hide Xor, Turned, Rotl, Rotr;
    RotlIsTurned(Mul64(a, 0x94D0_49BB_1331_11EB), state % 63 + 1);
    TimesNonNegative(a, 0x94D0_49BB_1331_11EB);
  }

  /** What a round does, from the places it goes to and the word it writes: store it, and add it to the state. */
  lemma RoundIs(dir: Direction, pad: Bytes, state: u64, i: nat, total: nat, k: nat, x: nat, y: nat, w: u64)
    requires 3 <= k <= 63 && |pad| == Pow2(k) && i < total && 8 <= |pad| < TWO64
    requires x == FirstIndex(dir, state, i, total, |pad|)
    requires y == SecondIndex(dir, state, Load(pad, x), |pad|)
    requires w == (if dir.Forward? then ForwardWord(Load(pad, x), Load(pad, y), state)
                   else ReverseWord(Load(pad, x), Load(pad, y), state))
    ensures Round(dir, Running(pad, state), i, total)
         == Running(pad[..x] + PutU64(w) + pad[x + 8..],
                    (state + w + if dir.Forward? then 0xA076_1D64_78BD_642F else 0x85EB_CA77_C2B2_AE63) % TWO64)
  {
    hide Pow2, FirstIndex, SecondIndex, Load, PutU64, ForwardWord, ReverseWord;
  }

  /** A forward round, whatever the pad and the state. */
  lemma ForwardRoundIs(pad: Bytes, state: u64, i: nat, total: nat, k: nat)
    requires 3 <= k <= 63 && |pad| == Pow2(k) && i < total
    ensures 8 <= |pad| < TWO64 && i * 0x9E37_79B9_7F4A_7C15 >= 0 && state * 0xD6E8_FEB8_6659_FD93 >= 0
    ensures var x := Place(Xor(state, (i * 0x9E37_79B9_7F4A_7C15) % TWO64), k);
      var a := Load(pad, x);
      var b := Load(pad, Place(Xor((a * 0x2_0000 + a / 0x8000_0000_0000) % TWO64, state), k));
      var w := Xor(Turned((a + b) % TWO64, 1 + state % 63), (state * 0xD6E8_FEB8_6659_FD93) % TWO64);
      Round(Forward, Running(pad, state), i, total)
      == Running(pad[..x] + PutU64(w) + pad[x + 8..], (state + w + 0xA076_1D64_78BD_642F) % TWO64)
  {
    hide Pow2, Xor, Turned, FirstIndex, SecondIndex, Load, PutU64, Place, ForwardWord, ReverseWord, Round;
    PowEight(k);
    FirstPlaces(state, i, total, k);
    var x := FirstIndex(Forward, state, i, total, |pad|);
    var a := Load(pad, x);
    SecondPlaces(state, a, k);
    var y := SecondIndex(Forward, state, a, |pad|);
    ForwardWordIs(a, Load(pad, y), state);
    RoundIs(Forward, pad, state, i, total, k, x, y, ForwardWord(a, Load(pad, y), state));
  }

  /** A reverse round: the number counts down and the state is turned. */
  lemma ReverseRoundIs(pad: Bytes, state: u64, i: nat, total: nat, k: nat)
    requires 3 <= k <= 63 && |pad| == Pow2(k) && i < total
    ensures 8 <= |pad| < TWO64 && (total - 1 - i) * 0xC2B2_AE3D_27D4_EB4F >= 0
    ensures var x := Place(Xor(state, ((total - 1 - i) * 0xC2B2_AE3D_27D4_EB4F) % TWO64), k);
      var a := Load(pad, x);
      var b := Load(pad, Place(Xor((a * 0x8_0000_0000_0000 + a / 0x2000) % TWO64,
                                   (state * 0x80 + state / 0x200_0000_0000_0000) % TWO64), k));
      a * 0x94D0_49BB_1331_11EB >= 0
      && var w := Xor(Turned((a * 0x94D0_49BB_1331_11EB) % TWO64, 63 - state % 63), (b + state) % TWO64);
         Round(Reverse, Running(pad, state), i, total)
         == Running(pad[..x] + PutU64(w) + pad[x + 8..], (state + w + 0x85EB_CA77_C2B2_AE63) % TWO64)
  {
    hide Pow2, Xor, Turned, FirstIndex, SecondIndex, Load, PutU64, Place, ForwardWord, ReverseWord, Round;
    PowEight(k);
    FirstPlaces(state, i, total, k);
    var x := FirstIndex(Reverse, state, i, total, |pad|);
    var a := Load(pad, x);
    SecondPlaces(state, a, k);
    var y := SecondIndex(Reverse, state, a, |pad|);
    ReverseWordIs(a, Load(pad, y), state);
    RoundIs(Reverse, pad, state, i, total, k, x, y, ReverseWord(a, Load(pad, y), state));
  }

  // ---------- whole passes ----------

  /**
   A mix is as many forward rounds as asked for, numbered from 0, from the state in the pad's first word, and
   from version 2 on as many reverse rounds from the state then in its last word.
   */
  lemma MixIsRounds(pad: Bytes, rounds: nat, version: nat, run: seq<Running>, back: seq<Running>)
    requires 8 <= |pad| < TWO64 && |run| == |back| == rounds + 1
    requires run[0] == Running(pad, GetU64(pad[..8])) && forall r :: r in run || r in back ==> |r.pad| == |pad|
    requires forall i :: 0 <= i < rounds ==> run[i + 1] == Round(Forward, run[i], i, rounds)
    requires back[0] == Running(run[rounds].pad, GetU64(run[rounds].pad[|pad| - 8..]))
    requires forall i :: 0 <= i < rounds ==> back[i + 1] == Round(Reverse, back[i], i, rounds)
    ensures Mixed(pad, rounds, version) == if version >= 2 then back[rounds].pad else run[rounds].pad
  {
    hide Round, GetU64;
    var mid := run[rounds].pad;
    assert mid[|pad| - 8..] == mid[|pad| - 8..|pad|] && pad[..8] == pad[0..8];
    PassIsRounds(Forward, pad, rounds, run);
    PassIsRounds(Reverse, mid, rounds, back);
  }

  lemma PassIsRounds(dir: Direction, pad: Bytes, rounds: nat, run: seq<Running>)
    requires PadSize(|pad|) && |run| == rounds + 1 && run[0] == Running(pad, FirstState(dir, pad))
    requires forall r :: r in run ==> |r.pad| == |pad|
    requires forall i :: 0 <= i < rounds ==> run[i + 1] == Round(dir, run[i], i, rounds)
    ensures Pass(dir, pad, rounds) == run[rounds].pad
  {
    hide Round, FirstState;
    RunReaches(dir, run, rounds, rounds);
  }

  lemma {:induction false} RunReaches(dir: Direction, run: seq<Running>, rounds: nat, k: nat)
    requires k <= rounds && |run| == rounds + 1 && forall i :: 0 <= i < |run| ==> PadSize(|run[i].pad|)
    requires forall i :: 0 <= i < rounds ==> run[i + 1] == Round(dir, run[i], i, rounds)
    ensures Rounds(dir, run[0], 0, k, rounds) == run[k]
  {
    hide Round;
    if k > 0 {
      RunReaches(dir, run, rounds, k - 1);
    }
  }
}
