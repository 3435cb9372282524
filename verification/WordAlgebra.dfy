/** Laws of the word operations: what shifts, rotations, exclusive or and masked addresses come to. */
module WordAlgebra {
  import opened Machine
  import opened Words

  // ---------- shifts ----------

  function Pow2(n: nat): nat { ShiftLeft(1, n) }

  lemma {:induction false} Pow2Positive(n: nat)
    ensures Pow2(n) > 0
  {
    if n > 0 {
      Pow2Positive(n - 1);
    }
  }

  lemma {:induction false} ShiftLeftMul(x: nat, n: nat)
    ensures ShiftLeft(x, n) == x * Pow2(n)
  {
    if n > 0 {
      ShiftLeftMul(x, n - 1);
      assert 2 * (x * Pow2(n - 1)) == x * (2 * Pow2(n - 1));
    }
  }

  lemma {:induction false} ShiftRightDiv(x: nat, n: nat)
    ensures Pow2(n) > 0 && ShiftRight(x, n) == x / Pow2(n)
  {
    Pow2Positive(n);
    if n > 0 {
      ShiftRightDiv(x, n - 1);
      DivTwice(x, Pow2(n - 1));
    }
  }

  lemma DivTwice(x: nat, d: nat)
    requires d > 0
    ensures (x / d) / 2 == x / (2 * d)
  {
    var q, r := x / d, x % d;
    assert x == q * d + r;
    var h, b := q / 2, q % 2;
    assert q * d == (2 * h + b) * d == h * (2 * d) + b * d;
    assert 0 <= b * d <= d;
    DivModUnique(h, b * d + r, 2 * d);
  }

  lemma {:induction false} Pow2Sum(a: nat, b: nat)
    ensures Pow2(a + b) == Pow2(a) * Pow2(b)
  {
    if b > 0 {
      Pow2Sum(a, b - 1);
      assert Pow2(a) * (2 * Pow2(b - 1)) == 2 * (Pow2(a) * Pow2(b - 1));
    }
  }

  /** The powers that occur below. */
  lemma Pow2Values()
    ensures Pow2(4) == 16 && Pow2(15) == 0x8000 && Pow2(9) == 0x200 && Pow2(13) == 0x2000 && Pow2(17) == 0x2_0000
    ensures Pow2(37) == 0x20_0000_0000
    ensures Pow2(47) == 0x8000_0000_0000 && Pow2(51) == 0x8_0000_0000_0000 && Pow2(55) == 0x80_0000_0000_0000
    ensures Pow2(63) == 0x8000_0000_0000_0000 && Pow2(64) == TWO64
  {
    assert Pow2(1) == 2 && Pow2(2) == 4;
    Pow2Sum(1, 1);
    Pow2Sum(2, 2);
    Pow2Sum(4, 4);
    assert Pow2(8) == 256;
    assert Pow2(4) == 16;
    hide ShiftLeft, Pow2;
    Pow2Sum(8, 1);
    Pow2Sum(9, 4);
    Pow2Sum(13, 4);
    Pow2Sum(13, 2);
    Pow2Sum(8, 8);
    Pow2Sum(16, 16);
    Pow2Sum(32, 1);
    Pow2Sum(33, 4);
    Pow2Sum(32, 2);
    Pow2Sum(34, 13);
    Pow2Sum(47, 4);
    Pow2Sum(51, 4);
    Pow2Sum(55, 8);
    Pow2Sum(32, 32);
  }

  // ---------- exclusive or ----------

  lemma {:induction false} XorBound(a: nat, b: nat, n: nat)
    ensures XorBits(a, b, n) < ShiftLeft(1, n)
  {
    if n > 0 {
      XorBound(a / 2, b / 2, n - 1);
    }
  }

  lemma {:induction false} XorBitsCancel(a: nat, b: nat, n: nat)
    requires b < ShiftLeft(1, n)
    ensures XorBits(a, XorBits(a, b, n), n) == b
  {
    if n > 0 {
      XorBitsCancel(a / 2, b / 2, n - 1);
      var x := XorBits(a, b, n);
      assert x / 2 == XorBits(a / 2, b / 2, n - 1);
    }
  }

  /** Exclusive or with the same word twice changes nothing. */
  lemma XorCancel(a: u64, b: u64)
    ensures Xor(a, Xor(a, b)) == b
  {
    hide XorBits;
    Pow2Values();
    XorBound(a, b, 64);
    XorBitsCancel(a, b, 64);
    XorBound(a, XorBits(a, b, 64), 64);
  }

  lemma {:induction false} XorZeroBits(b: nat, n: nat)
    requires b < ShiftLeft(1, n)
    ensures XorBits(0, b, n) == b && XorBits(b, 0, n) == b
  {
    if n > 0 {
      XorZeroBits(b / 2, n - 1);
    }
  }

  lemma XorZero(b: u64)
    ensures Xor(0, b) == b && Xor(b, 0) == b
  {
    hide XorBits;
    Pow2Values();
    XorZeroBits(b, 64);
  }

  lemma {:induction false} XorCommutes(a: nat, b: nat, n: nat)
    ensures XorBits(a, b, n) == XorBits(b, a, n)
  {
    if n > 0 {
      XorCommutes(a / 2, b / 2, n - 1);
    }
  }

  /** With the highest of n + 1 bits alone on one side, exclusive or flips that bit. */
  lemma {:induction false} XorTopBits(b: nat, n: nat)
    requires b < 2 * ShiftLeft(1, n)
    ensures XorBits(ShiftLeft(1, n), b, n + 1)
         == (if b < ShiftLeft(1, n) then b + ShiftLeft(1, n) else b - ShiftLeft(1, n))
  {
    if n > 0 {
      XorTopBits(b / 2, n - 1);
    }
  }

  const TOP: u64 := 0x8000_0000_0000_0000

  lemma XorTop(b: u64)
    ensures Xor(TOP, b) == (if b < TOP then b + TOP else b - TOP)
    ensures Xor(b, TOP) == (if b < TOP then b + TOP else b - TOP)
  {
    hide XorBits, ShiftLeft, Pow2;
    TopBits(b);
    XorCommutes(TOP, b, 64);
  }

  lemma TopBits(b: u64)
    ensures XorBits(TOP, b, 64) == (if b < TOP then b + TOP else b - TOP)
  {
    Pow2Values();
    hide XorBits;
    XorTopBits(b, 63);
  }

  // ---------- conjunction with a mask of low ones ----------

  lemma {:induction false} AndLow(a: nat, k: nat, n: nat)
    requires k <= n
    ensures ShiftLeft(1, k) > 0 && AndBits(a, ShiftLeft(1, k) - 1, n) == a % ShiftLeft(1, k)
  {
    if k == 0 {
      AndNothing(a, n);
    } else {
      AndLow(a / 2, k - 1, n - 1);
      var d := ShiftLeft(1, k - 1);
      HalfRemainder(a, d);
      assert (2 * d - 1) / 2 == d - 1;
    }
  }

  lemma {:induction false} AndNothing(a: nat, n: nat)
    ensures AndBits(a, 0, n) == 0
  {
    if n > 0 {
      AndNothing(a / 2, n - 1);
    }
  }

  lemma HalfRemainder(a: nat, d: nat)
    requires d > 0
    ensures a % (2 * d) == a % 2 + 2 * ((a / 2) % d)
  {
    var q, r := (a / 2) / d, (a / 2) % d;
    assert a / 2 == q * d + r;
    assert a == q * (2 * d) + (a % 2 + 2 * r);
    DivModUnique(q, a % 2 + 2 * r, 2 * d);
  }

  // ---------- rotations ----------

  /** A rotation in terms of the two powers it is made of. */
  lemma RotlIs(x: u64, n: nat)
    requires 1 <= n <= 63
    ensures Pow2(64 - n) > 0 && Rotl(x, n) == (x * Pow2(n) + x / Pow2(64 - n)) % TWO64
  {
    hide ShiftLeft, ShiftRight, Pow2;
    ShiftLeftMul(x, n);
    ShiftRightDiv(x, 64 - n);
  }

  lemma RotlBy17(x: u64)
    ensures Rotl(x, 17) == (0x2_0000 * x + x / 0x8000_0000_0000) % TWO64
  {
    hide Rotl, Pow2;
    RotlIs(x, 17);
    Pow2Values();
  }

  lemma RotrBy13(x: u64)
    ensures Rotr(x, 13) == (0x8_0000_0000_0000 * x + x / 0x2000) % TWO64
  {
    hide Rotl, Pow2;
    RotlIs(x, 51);
    Pow2Values();
  }

  /** Rotating right by nine and then left by nine is nothing. */
  lemma RotateBack9(x: u64)
    ensures Rotl(Rotr(x, 9), 9) == x
  {
    hide Rotl, Pow2;
    Pow2Values();
    RotlIs(x, 55);
    RotlIs(Rotr(x, 9), 9);
    NineAndBack(x);
  }

  lemma NineAndBack(x: u64)
    ensures var y := (x * 0x80_0000_0000_0000 + x / 512) % TWO64;
      (y * 512 + y / 0x80_0000_0000_0000) % TWO64 == x
  {
    var lo, hi := x % 512, x / 512;
    var y := lo * 0x80_0000_0000_0000 + hi;
    assert x * 0x80_0000_0000_0000 + hi == hi * TWO64 + y;
    DivModUnique(hi, y, TWO64);
    DivModUnique(lo, hi, 0x80_0000_0000_0000);
    assert y * 512 + lo == lo * TWO64 + x;
    DivModUnique(lo, x, TWO64);
  }

  // ---------- memory ----------

  /** Storing the word that is there already changes nothing. */
  lemma StoreSame(pad: Bytes, x: nat)
    requires x + 8 <= |pad|
    ensures Store(pad, x, Load(pad, x)) == pad
  {
    hide PutU64, GetU64;
    U64Reencodes(pad[x..x + 8]);
  }

  lemma U64Reencodes(s: Bytes)
    requires |s| == 8
    ensures PutU64(GetU64(s)) == s
  {
    LeBytesOfValue(s);
  }

  lemma LoadElsewhere(pad: Bytes, x: nat, v: u64, z: nat)
    requires x + 8 <= |pad| && z + 8 <= |pad| && (z + 8 <= x || x + 8 <= z)
    ensures Load(Store(pad, x, v), z) == Load(pad, z)
  {
    hide PutU64, GetU64;
    assert Store(pad, x, v)[z..z + 8] == pad[z..z + 8];
  }

  /** The last of two stores in the same place is the one that counts. */
  lemma StoreTwice(pad: Bytes, x: nat, v: u64, w: u64)
    requires x + 8 <= |pad|
    ensures Store(Store(pad, x, v), x, w) == Store(pad, x, w)
  {
    hide PutU64;
  }

  lemma StoresCommute(pad: Bytes, x: nat, v: u64, z: nat, w: u64)
    requires x + 8 <= |pad| && z + 8 <= |pad| && (z + 8 <= x || x + 8 <= z)
    ensures Store(Store(pad, x, v), z, w) == Store(Store(pad, z, w), x, v)
  {
    hide PutU64;
  }
}
