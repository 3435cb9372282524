/**
 The steps of the fusion wave in plain arithmetic (crates/meshhash-cpu/src/fusion.rs;
 apps/mesh-miner-gpu/cuda/meshhash_mix.cu), on pads of a power-of-two length: what a program word is,
 which operation a step picks, what the eight operations compute, where the lanes read, and how a
 lane's bytes go into the accumulator.
 */
module WaveMeaning {
  import opened Machine
  import opened Words
  import opened WordAlgebra
  import opened Bits
  import opened MixMeaning
  import opened Wave

  // ---------- the program ----------

  /** Fifty-one bytes are hashed for a program: salt, head, and the letters mesh-fusion. */
  lemma ProgramInputIs(salt: u64, head: Bytes)
    requires |head| == 32
    ensures var b := ProgramInput(salt, head);
      && |b| == 51 && b[..8] == PutU64(salt) && b[8..40] == head
      && b[40..] == [109, 101, 115, 104, 45, 102, 117, 115, 105, 111, 110]
  {
    hide PutU64;
    FusionTag();
  }

  lemma FusionTag()
    ensures Text.Ascii("mesh-fusion") == [109, 101, 115, 104, 45, 102, 117, 115, 105, 111, 110]
  {
  }

  /** Program word i: the digest's eight bytes from 2i on, counted round at 24, and i times a constant. */
  lemma ProgramWordIs(digest: Digest, i: nat)
    requires i < 32
    ensures i * 0x9E37_79B9_7F4A_7C15 >= 0
    ensures var o := if i < 12 then 2 * i else if i < 24 then 2 * i - 24 else 2 * i - 48;
      ProgramOf(digest)[i] == Xor(GetU64(digest[o..o + 8]), (i * 0x9E37_79B9_7F4A_7C15) % TWO64)
  {
    hide GetU64, Xor;
  }

  // ---------- the operations ----------

  lemma OddOf(b: u64)
    ensures Or(b, 1) == if b % 2 == 1 then b else b + 1
  {
    hide OrBits;
    Pow2Values();
    OrBound(b, 1, 64);
    OneStep(b);
    OrZero(b / 2, 63);
  }

  lemma OneStep(b: u64)
    ensures OrBits(b, 1, 64) == 1 + 2 * OrBits(b / 2, 0, 63)
  {
  }

  lemma {:induction false} OrZero(b: nat, n: nat)
    requires b < Pow2(n)
    ensures OrBits(b, 0, n) == b
  {
    if n > 0 {
      OrZero(b / 2, n - 1);
    }
  }

  lemma AndAndOr(a: u64, b: u64)
    ensures Add64(And(a, b), Or(a, b)) == (a + b) % TWO64
  {
    hide AndBits, OrBits;
    Pow2Values();
    OrBound(a, b, 64);
    AndPlusOr(a, b, 64);
  }

  /** The eight operations, for all words; rotations by 0 count as by 1. */
  lemma AluIs(op: byte, a: u64, b: u64)
    ensures var n := if b % 64 == 0 then 1 else b % 64;
      a * (if b % 2 == 1 then b else b + 1) >= 0 && b * 0xD6E8_FEB8_6659_FD93 >= 0
      && Alu(op, a, b) ==
         if op % 8 == 0 then (a + b) % TWO64
         else if op % 8 == 1 then Xor(a, b)
         else if op % 8 == 2 then Xor(Turned(a, n), b)
         else if op % 8 == 3 then (a * (if b % 2 == 1 then b else b + 1)) % TWO64
         else if op % 8 == 4 then (a + b) % TWO64
         else if op % 8 == 5 then (a + TWO64 - Turned(b, 11)) % TWO64
         else if op % 8 == 6 then (Turned(a, 64 - n) + b) % TWO64
         else Xor(a, (b * 0xD6E8_FEB8_6659_FD93) % TWO64)
  {
    hide Xor, Or, And, Rotl, Rotr, Turned, ShiftLeft, Pow2;
    var n := if b % 64 == 0 then 1 else b % 64;
    RotlIsTurned(a, n);
    RotlIsTurned(b, 11);
    OddOf(b);
    AndAndOr(a, b);
    var odd: nat := if b % 2 == 1 then b else b + 1;
    TimesNonNegative(a, odd);
    TimesNonNegative(b, 0xD6E8_FEB8_6659_FD93);
  }

  /** Step t of a lane picks the operation whose bits are bits 3(t mod 8).. of its word, exclusive or those of t. */
  lemma OpCodeIs(word: u64, step: nat, j: nat)
    requires step < 64 && j < 3
    ensures Bit(OpCode(word, step) % 8, j) == if Bit(word, 3 * (step % 8) + j) == Bit(step, j) then 0 else 1
  {
    hide Bit, OpCode;
    OpCodeParts(word, step);
    OpCodeBit(word, step, step % 8 * 3, j);
  }

  lemma OpCodeParts(word: u64, step: nat)
    requires step < 64
    ensures ShiftRight(word, step % 8 * 3) <= word
    ensures OpCode(word, step) == Xor(ShiftRight(word, step % 8 * 3), step) % 256
  {
    hide Xor, ShiftRight;
    ShiftSmaller(word, step % 8 * 3);
  }

  lemma OpCodeBit(word: u64, step: nat, n: nat, j: nat)
    requires step < 64 && j < 3 && ShiftRight(word, n) <= word
    ensures Bit(Xor(ShiftRight(word, n), step) % 256 % 8, j) == if Bit(word, n + j) == Bit(step, j) then 0 else 1
  {
    hide Bit, Xor, ShiftRight;
    BitwiseMeaning(ShiftRight(word, n), step, j);
    BitOfShifted(word, n, j);
    LowBitsSame(Xor(ShiftRight(word, n), step), j);
  }

  lemma {:induction false} ShiftSmaller(x: nat, n: nat)
    ensures ShiftRight(x, n) <= x
  {
    if n > 0 {
      ShiftSmaller(x, n - 1);
    }
  }

  lemma LowBitsSame(x: nat, j: nat)
    requires j < 3
    ensures Bit(x % 256 % 8, j) == Bit(x, j)
  {
    hide Bit;
    assert x % 256 % 8 == x % 8;
    assert Pow2(3) == 8 by { assert Pow2(1) == 2 && Pow2(2) == 4; }
    BitOfLow(x, 3, j);
  }

  // ---------- the lanes ----------

  /**
   A lane's register: at first its program word and its number times a constant. Each step reads at the
   register and the step's word, multiplied, computes, reads where the result turned up by 17 and the step
   say, adds, and turns up by 7.
   */
  lemma LaneIs(prog: Program, lane: nat, pad: Bytes, t: nat, k: nat)
    requires 6 <= k <= 63 && |pad| == Pow2(k) && lane < 32 && t < 64
    ensures WaveSize(|pad|) && lane * 0xA076_1D64_78BD_642F >= 0
    ensures LaneAfter(prog, lane, pad, 0) == Xor(prog[lane], (lane * 0xA076_1D64_78BD_642F) % TWO64)
    ensures var acc := LaneAfter(prog, lane, pad, t);
      var key := Xor(acc, prog[t % 32]);
      key * 0x94D0_49BB_1331_11EB >= 0
      && var one := Load(pad, Place((key * 0x94D0_49BB_1331_11EB) % TWO64, k));
         var mid := Alu(OpCode(prog[lane], t), acc, one);
         var two := Load(pad, Place(Xor(Turned(mid, 17), t), k));
         LaneAfter(prog, lane, pad, t + 1) == Turned((mid + two) % TWO64, 7)
  {
    hide Pow2, Xor, Turned, Load, Alu, OpCode, ShiftLeft, Place, GatherOne, GatherTwo, LaneStep;
    LargeEnough(k);
    LaneStart(prog, lane, pad);
    var acc := LaneAfter(prog, lane, pad, t);
    FirstGather(acc, prog[t % 32], k);
    var mid := Alu(OpCode(prog[lane], t), acc, Load(pad, GatherOne(acc, prog[t % 32], |pad|)));
    SecondGather(mid, t, k);
    LaneStepIs(prog, lane, pad, acc, t);
  }

  lemma LaneStart(prog: Program, lane: nat, pad: Bytes)
    requires WaveSize(|pad|) && lane < 32
    ensures lane * 0xA076_1D64_78BD_642F >= 0
    ensures LaneAfter(prog, lane, pad, 0) == Xor(prog[lane], (lane * 0xA076_1D64_78BD_642F) % TWO64)
  {
    hide Xor;
  }

  lemma FirstGather(acc: u64, word: u64, k: nat)
    requires 6 <= k <= 63
    ensures 64 <= Pow2(k) < TWO64 && Xor(acc, word) * 0x94D0_49BB_1331_11EB >= 0
    ensures GatherOne(acc, word, Pow2(k)) == Place((Xor(acc, word) * 0x94D0_49BB_1331_11EB) % TWO64, k)
  {
    hide Pow2, Xor, Address, Place;
    LargeEnough(k);
    TimesNonNegative(Xor(acc, word), 0x94D0_49BB_1331_11EB);
    AddressIsPlace(Mul64(Xor(acc, word), 0x94D0_49BB_1331_11EB), k);
  }

  lemma SecondGather(mid: u64, t: nat, k: nat)
    requires 6 <= k <= 63 && t < 64
    ensures 64 <= Pow2(k) < TWO64 && GatherTwo(mid, t, Pow2(k)) == Place(Xor(Turned(mid, 17), t), k)
  {
    hide Pow2, Xor, Address, Place, Turned, Rotl;
    LargeEnough(k);
    RotlIsTurned(mid, 17);
    AddressIsPlace(Xor(Rotl(mid, 17), t), k);
  }

  lemma LaneStepIs(prog: Program, lane: nat, pad: Bytes, acc: u64, t: nat)
    requires WaveSize(|pad|) && lane < 32 && t < 64
    ensures var mid := Alu(OpCode(prog[lane], t), acc, Load(pad, GatherOne(acc, prog[t % 32], |pad|)));
      LaneStep(prog, lane, pad, acc, t) == Turned((mid + Load(pad, GatherTwo(mid, t, |pad|))) % TWO64, 7)
  {
    hide Turned, Load, Alu, OpCode, GatherOne, GatherTwo, Rotl;
    var mid := Alu(OpCode(prog[lane], t), acc, Load(pad, GatherOne(acc, prog[t % 32], |pad|)));
    RotlIsTurned(Add64(mid, Load(pad, GatherTwo(mid, t, |pad|))), 7);
  }

  lemma LargeEnough(k: nat)
    requires 6 <= k <= 63
    ensures 64 <= Pow2(k) < TWO64
  {
    assert Pow2(6) == 64 by { assert Pow2(2) == 4; assert Pow2(4) == 16; }
    hide Pow2;
    PowEight(k);
    Pow2Sum(k - 6, 6);
    Pow2Positive(k - 6);
  }

  // ---------- the accumulator ----------

  lemma XorByteBits(a: byte, b: byte, j: nat)
    requires j < 8
    ensures Bit(XorByte(a, b), j) == if Bit(a, j) == Bit(b, j) then 0 else 1
  {
    hide Bit, XorBits;
    XorBitAt(a, b, 8, j);
    XorBound(a, b, 8);
    assert Pow2(8) == 256 by { assert Pow2(2) == 4 && Pow2(4) == 16 && Pow2(6) == 64; }
  }

  /**
   Byte i of a lane's register is combined with byte i of the accumulator by exclusive or and then added to
   the byte as many places further, counted round, as the lane's number; no other byte changes.
   */
  lemma ByteInIs(acc: Digest, lane: nat, word: u64, i: nat, p: nat)
    requires lane < 32 && i < 8 && p < 32
    ensures var before, after, x := BytesIn(acc, lane, word, i), BytesIn(acc, lane, word, i + 1), PutU64(word)[i];
      var xored := if p == i then XorByte(before[p], x) else before[p];
      after[p] == if (p - i - lane) % 32 == 0 then (xored + x) % 256 else xored
  {
    hide XorByte, PutU64;
    Around(lane, i, p);
    OneByteIn(acc, lane, word, i, p);
  }

  lemma OneByteIn(acc: Digest, lane: nat, word: u64, i: nat, p: nat)
    requires lane < 32 && i < 8 && p < 32
    ensures var before, x := BytesIn(acc, lane, word, i), PutU64(word)[i];
      var xored := if p == i then XorByte(before[p], x) else before[p];
      BytesIn(acc, lane, word, i + 1)[p] == if p == (i + lane) % 32 then (xored + x) % 256 else xored
  {
    hide XorByte, PutU64;
  }

  lemma Around(lane: nat, i: nat, p: nat)
    requires lane < 32 && i < 8 && p < 32
    ensures p == (i + lane) % 32 <==> (p - i - lane) % 32 == 0
  {
  }

  /** The wave starts from zeros and takes the lanes' last registers in order. */
  lemma LanesInIs(prog: Program, pad: Bytes, n: nat, p: nat)
    requires WaveSize(|pad|) && n < 32 && p < 32
    ensures LanesIn(prog, pad, 0)[p] == 0
    ensures LanesIn(prog, pad, n + 1) == BytesIn(LanesIn(prog, pad, n), n, LaneAfter(prog, n, pad, 64), 8)
    ensures BytesIn(LanesIn(prog, pad, n), n, LaneAfter(prog, n, pad, 64), 0) == LanesIn(prog, pad, n)
  {
    hide LaneAfter;
  }

  /** The program is made of the salt and the pad's own first 32 bytes, and all 32 lanes go in. */
  lemma WaveIs(hash: Bytes -> Digest, pad: Bytes, salt: u64, input: Bytes)
    requires WaveSize(|pad|) && |input| == 51
    requires input[..8] == PutU64(salt) && input[8..40] == pad[..32]
    requires input[40..] == [109, 101, 115, 104, 45, 102, 117, 115, 105, 111, 110]
    ensures WaveOf(hash, pad, salt) == LanesIn(ProgramOf(hash(input)), pad, 32)
  {
    hide PutU64, LanesIn, ProgramOf, ProgramInput;
    ProgramInputIs(salt, pad[..32]);
    assert input == input[..8] + input[8..40] + input[40..];
    var b := ProgramInput(salt, pad[..32]);
    assert b == b[..8] + b[8..40] + b[40..];
  }
}
