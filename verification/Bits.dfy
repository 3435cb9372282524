/**
 The word operations bit by bit: which bit of the result comes from which bits of the operands. The
 operations themselves are in `Words`; nothing here repeats how they are computed.
 */
module Bits {
  import opened Machine
  import opened Words
  import opened WordAlgebra

  /** Bit i of x, the lowest being bit 0. */
  function Bit(x: nat, i: nat): (b: nat)
    ensures b <= 1
  {
    if i == 0 then x % 2 else Bit(x / 2, i - 1)
  }

  /** That is, x / 2^i mod 2. */
  lemma {:induction false} BitIs(x: nat, i: nat)
    ensures Pow2(i) > 0 && Bit(x, i) == x / Pow2(i) % 2
  {
    Pow2Positive(i);
    if i > 0 {
      BitIs(x / 2, i - 1);
      Halved(x, Pow2(i - 1));
    }
  }

  lemma Halved(x: nat, d: nat)
    requires d > 0
    ensures (x / 2) / d == x / (2 * d)
  {
    HalfRemainder(x, d);
    var q, r := (x / 2) / d, (x / 2) % d;
    assert x / 2 == q * d + r;
    assert x == q * (2 * d) + (x % 2 + 2 * r);
    DivModUnique(q, x % 2 + 2 * r, 2 * d);
  }

  /** A word is its bits. */
  lemma {:induction false} SameBits(x: nat, y: nat, n: nat)
    requires x < Pow2(n) && y < Pow2(n) && forall i :: 0 <= i < n ==> Bit(x, i) == Bit(y, i)
    ensures x == y
  {
    if n > 0 {
      forall i | 0 <= i < n - 1 ensures Bit(x / 2, i) == Bit(y / 2, i) {
        assert Bit(x, i + 1) == Bit(y, i + 1);
      }
      SameBits(x / 2, y / 2, n - 1);
      assert Bit(x, 0) == Bit(y, 0);
    }
  }

  // ---------- bitwise operations ----------

  lemma {:induction false} XorBitAt(a: nat, b: nat, n: nat, i: nat)
    requires i < n
    ensures Bit(XorBits(a, b, n), i) == if Bit(a, i) == Bit(b, i) then 0 else 1
  {
    if i > 0 {
      XorBitAt(a / 2, b / 2, n - 1, i - 1);
    }
  }

  lemma {:induction false} AndBitAt(a: nat, b: nat, n: nat, i: nat)
    requires i < n
    ensures Bit(AndBits(a, b, n), i) == if Bit(a, i) == 1 && Bit(b, i) == 1 then 1 else 0
  {
    if i > 0 {
      AndBitAt(a / 2, b / 2, n - 1, i - 1);
    }
  }

  lemma {:induction false} OrBitAt(a: nat, b: nat, n: nat, i: nat)
    requires i < n
    ensures Bit(OrBits(a, b, n), i) == if Bit(a, i) == 1 || Bit(b, i) == 1 then 1 else 0
  {
    if i > 0 {
      OrBitAt(a / 2, b / 2, n - 1, i - 1);
    }
  }

  lemma {:induction false} OrBound(a: nat, b: nat, n: nat)
    ensures OrBits(a, b, n) < Pow2(n)
  {
    if n > 0 {
      OrBound(a / 2, b / 2, n - 1);
    }
  }

  /** Exclusive or, conjunction and disjunction of words, at each of their 64 bits. */
  lemma BitwiseMeaning(a: u64, b: u64, i: nat)
    requires i < 64
    ensures Bit(Xor(a, b), i) == if Bit(a, i) == Bit(b, i) then 0 else 1
    ensures Bit(And(a, b), i) == if Bit(a, i) == 1 && Bit(b, i) == 1 then 1 else 0
    ensures Bit(Or(a, b), i) == if Bit(a, i) == 1 || Bit(b, i) == 1 then 1 else 0
  {
    hide XorBits, AndBits, OrBits, Bit;
    Pow2Values();
    XorBound(a, b, 64);
    OrBound(a, b, 64);
    XorBitAt(a, b, 64, i);
    AndBitAt(a, b, 64, i);
    OrBitAt(a, b, 64, i);
  }

  /** Conjunction and disjunction together hold every bit once: their sum is the operands' sum. */
  lemma {:induction false} AndPlusOr(a: nat, b: nat, n: nat)
    requires a < Pow2(n) && b < Pow2(n)
    ensures AndBits(a, b, n) + OrBits(a, b, n) == a + b
  {
    if n > 0 {
      AndPlusOr(a / 2, b / 2, n - 1);
    }
  }

  // ---------- rotations ----------

  lemma {:induction false} BitOfShifted(x: nat, k: nat, j: nat)
    ensures Bit(ShiftRight(x, k), j) == Bit(x, j + k)
  {
    if k > 0 {
      BitOfShifted(x, k - 1, j + 1);
      assert Bit(ShiftRight(x, k), j) == Bit(ShiftRight(x, k - 1), j + 1);
    }
  }

  lemma PowStep(n: nat)
    requires n > 0
    ensures Pow2(n) == 2 * Pow2(n - 1) && Pow2(n - 1) > 0
  {
    Pow2Positive(n - 1);
  }

  lemma {:induction false} BitOfLow(x: nat, k: nat, i: nat)
    requires i < k
    ensures Pow2(k) > 0 && Bit(x % Pow2(k), i) == Bit(x, i)
  {
    hide Pow2;
    PowStep(k);
    LowHalves(x, Pow2(k - 1));
    if i > 0 {
      BitOfLow(x / 2, k - 1, i - 1);
    }
  }

  lemma LowHalves(x: nat, d: nat)
    requires d > 0
    ensures x % (2 * d) / 2 == (x / 2) % d && x % (2 * d) % 2 == x % 2
  {
    HalfRemainder(x, d);
  }

  /** The bits of high * 2^n + low. */
  lemma {:induction false} BitOfSum(high: nat, low: nat, n: nat, j: nat)
    requires low < Pow2(n)
    ensures high * Pow2(n) >= 0
    ensures Bit(high * Pow2(n) + low, j) == if j < n then Bit(low, j) else Bit(high, j - n)
  {
    NonNegative(high, Pow2(n));
    if n == 0 {
      assert high * Pow2(0) + low == high;
    } else {
      hide Pow2;
      PowStep(n);
      HighHalves(high, Pow2(n - 1), low);
      BitOfSum(high, low / 2, n - 1, if j > 0 then j - 1 else 0);
    }
  }

  lemma NonNegative(a: nat, b: nat)
    ensures a * b >= 0
  {
  }

  lemma HighHalves(high: nat, d: nat, low: nat)
    ensures high * d >= 0 && high * (2 * d) >= 0
    ensures (high * (2 * d) + low) / 2 == high * d + low / 2 && (high * (2 * d) + low) % 2 == low % 2
  {
    NonNegative(high, d);
    assert high * (2 * d) == 2 * (high * d);
  }

  /** A rotation moves bit i to bit i + n, counted round. */
  lemma RotationMeaning(x: u64, n: nat, i: nat)
    requires 1 <= n <= 63 && i < 64
    ensures Bit(Rotl(x, n), (i + n) % 64) == Bit(x, i)
    ensures Bit(Rotr(x, n), (i + 64 - n) % 64) == Bit(x, i)
  {
    hide Rotl, Bit;
    RotatedBit(x, n, i);
    RotatedBit(x, 64 - n, i);
  }

  lemma RotatedBit(x: u64, n: nat, i: nat)
    requires 1 <= n <= 63 && i < 64
    ensures Bit(Rotl(x, n), (i + n) % 64) == Bit(x, i)
  {
    hide Rotl, Bit, Pow2, ShiftRight;
    var j := (i + n) % 64;
    var lo, hi := RotationParts(x, n);
    BitOfSum(lo, hi, n, j);
    if i + n < 64 {
      BitOfLow(x, 64 - n, i);
    } else {
      ShiftRightDiv(x, 64 - n);
      BitOfShifted(x, 64 - n, j);
    }
  }

  lemma RotationParts(x: u64, n: nat) returns (lo: nat, hi: nat)
    requires 1 <= n <= 63
    ensures Pow2(64 - n) > 0 && lo == x % Pow2(64 - n) && hi == x / Pow2(64 - n) < Pow2(n)
    ensures Rotl(x, n) == lo * Pow2(n) + hi
  {
    hide Rotl, Pow2;
    RotlIs(x, n);
    Pow2Positive(64 - n);
    Pow2Positive(n);
    Pow2Sum(64 - n, n);
    Pow2Values();
    var p, q := Pow2(64 - n), Pow2(n);
    lo, hi := x % p, x / p;
    assert x == hi * p + lo;
    HighPart(hi, p, q, x);
    LowPart(lo, hi, p, q);
    assert x * q + hi == hi * TWO64 + (lo * q + hi) by {
      assert x * q == hi * p * q + lo * q;
      assert hi * p * q == hi * (p * q);
    }
    DivModUnique(hi, lo * q + hi, TWO64);
  }

  lemma HighPart(hi: nat, p: nat, q: nat, x: nat)
    requires p * q == TWO64 && x < TWO64 && hi * p <= x
    ensures hi < q
  {
    if hi >= q {
      MulUp(q, hi, p);
    }
  }

  lemma MulUp(a: nat, b: nat, d: nat)
    requires a <= b
    ensures a * d <= b * d
  {
  }

  lemma LowPart(lo: nat, hi: nat, p: nat, q: nat)
    requires p * q == TWO64 && lo < p && hi < q
    ensures 0 <= lo * q && lo * q + hi < TWO64
  {
    MulUp(lo + 1, p, q);
  }

  // ---------- addresses ----------

  /** An address keeps the bits of the word that the mask, length less eight, has set, from bit 3 on. */
  lemma AddressBits(x: u64, len: nat, i: nat)
    requires 8 <= len < TWO64 && i < 64
    ensures Bit(Address(x, len), i) == if i >= 3 && Bit(x, i) == 1 && Bit(len - 8, i) == 1 then 1 else 0
  {
    hide AndBits;
    AndBitAt(x, len - 8, 64, i);
    ClearedBits(AndBits(x, len - 8, 64), i);
  }

  lemma ClearedBits(m: nat, i: nat)
    ensures 0 <= m - m % 8 && Bit(m - m % 8, i) == if i < 3 then 0 else Bit(m, i)
  {
    hide Bit, ShiftRight;
    var z := m - m % 8;
    assert Pow2(3) == 8 by { assert Pow2(1) == 2 && Pow2(2) == 4; }
    BitOfSum(m / 8, 0, 3, i);
    assert z == m / 8 * 8;
    ZeroBit(i);
    if i >= 3 {
      ShiftRightDiv(m, 3);
      BitOfShifted(m, 3, i - 3);
    }
  }

  lemma {:induction false} ZeroBit(i: nat)
    ensures Bit(0, i) == 0
  {
    if i > 0 {
      ZeroBit(i - 1);
    }
  }

  // ---------- bytes ----------

  /** Byte i of a little-endian field is the value's i-th digit to base 256. */
  lemma {:induction false} LeByteAt(x: nat, n: nat, i: nat)
    requires i < n
    ensures LeBytes(x, n)[i] == x / Pow256(i) % 256
  {
    if i > 0 {
      LeByteAt(x / 256, n - 1, i - 1);
      assert LeBytes(x, n)[i] == LeBytes(x / 256, n - 1)[i - 1];
      DivBy256(x, Pow256(i - 1));
    }
  }

  lemma DivBy256(x: nat, d: nat)
    requires d > 0
    ensures (x / 256) / d == x / (256 * d)
  {
    var q, r := (x / 256) / d, (x / 256) % d;
    assert x / 256 == q * d + r;
    assert x == q * (256 * d) + (x % 256 + 256 * r);
    DivModUnique(q, x % 256 + 256 * r, 256 * d);
  }

  /** The fixed-width fields, byte by byte; a negative number is written modulo 2^32. */
  lemma FieldBytes(x: u64, y: u32, z: i32)
    ensures PutU64(x) == [x % 256, x / 0x100 % 256, x / 0x1_0000 % 256, x / 0x100_0000 % 256, x / 0x1_0000_0000 % 256,
                          x / 0x100_0000_0000 % 256, x / 0x1_0000_0000_0000 % 256, x / 0x100_0000_0000_0000 % 256]
    ensures PutU32(y) == [y % 256, y / 0x100 % 256, y / 0x1_0000 % 256, y / 0x100_0000 % 256]
    ensures PutI32(z) == PutU32(if z >= 0 then z else z + 0x1_0000_0000)
  {
    hide LeBytes;
    SmallPowers();
    forall i | 0 <= i < 8 ensures LeBytes(x, 8)[i] == x / Pow256(i) % 256 {
      LeByteAt(x, 8, i);
    }
    forall i | 0 <= i < 4 ensures LeBytes(y, 4)[i] == y / Pow256(i) % 256 {
      LeByteAt(y, 4, i);
    }
    SignedBits(z);
  }

  lemma SmallPowers()
    ensures Pow256(0) == 1 && Pow256(1) == 0x100 && Pow256(2) == 0x1_0000 && Pow256(3) == 0x100_0000
    ensures Pow256(4) == 0x1_0000_0000 && Pow256(5) == 0x100_0000_0000 && Pow256(6) == 0x1_0000_0000_0000
    ensures Pow256(7) == 0x100_0000_0000_0000
  {
    assert Pow256(1) == 0x100;
    assert Pow256(2) == 0x1_0000;
    assert Pow256(3) == 0x100_0000;
    assert Pow256(4) == 0x1_0000_0000;
    assert Pow256(5) == 0x100_0000_0000;
    assert Pow256(6) == 0x1_0000_0000_0000;
  }

  lemma SignedBits(z: i32)
    ensures ToBits32(z) == if z >= 0 then z else z + 0x1_0000_0000
  {
  }
}
