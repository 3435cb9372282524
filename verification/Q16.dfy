/**
 Q16.16 fixed-point arithmetic (crates/mesh-ai-v2/src/q16.rs).
 */
module Q16 {
  import opened Machine

  const ONE: i32 := 0x1_0000

  /** The symmetric box `clamp_q` keeps weights and logits in: plus or minus eight. */
  const BOX: i32 := 0x8_0000

  /** `((a as i64 * b as i64) >> 16) as i32`: floor, then keep the low 32 bits. */
  function QMul(a: i32, b: i32): i32 {
    Wrap32((a * b) / 0x1_0000)
  }

  function QAdd(a: i32, b: i32): i32 { Saturate32(a + b) }

  function QSub(a: i32, b: i32): i32 { Saturate32(a - b) }

  function QRelu(x: i32): i32 { Max(x, 0) }

  function ClampQ(x: i32): i32 { Clamp(x, -BOX, BOX) }

  /** `milli / 1000` in Q16, rounded half up, truncated to `i32`. */
  function QFromMilli(milli: u32): i32 {
    Wrap32((milli * 0x1_0000 + 500) / 1000)
  }

  predicate InBox(x: i32) { -BOX <= x <= BOX }

  /** The learning rates a normalised job can carry: 1/1000 up to 500/1000. */
  lemma JobRateIsSmall(milli: u32)
    requires 1 <= milli <= 500
    ensures 66 <= QFromMilli(milli) <= 0x8000
    ensures QFromMilli(milli) == (milli * 0x1_0000 + 500) / 1000
  {
    var n := (milli * 0x1_0000 + 500) / 1000;
    assert 66 <= n <= 0x8000;
  }

  function Abs(x: int): nat { if x < 0 then -x else x }

  lemma ProductBound(a: int, b: int, A: nat, B: nat)
    requires Abs(a) <= A && Abs(b) <= B
    ensures Abs(a * b) <= A * B
  {
    assert Abs(a * b) == Abs(a) * Abs(b);
    assert Abs(a) * Abs(b) <= A * Abs(b);
    assert A * Abs(b) <= A * B;
  }

  /** A product is the floor of the real one modulo 2^32, and exactly it just when that fits 32 bits. */
  lemma QMulExactIff(a: i32, b: i32)
    ensures (QMul(a, b) - (a * b) / 0x1_0000) % 0x1_0000_0000 == 0
    ensures QMul(a, b) == (a * b) / 0x1_0000 <==> -0x8000_0000 <= (a * b) / 0x1_0000 < 0x8000_0000
  {
    WrapMeaning((a * b) / 0x1_0000);
  }

  lemma WrapMeaning(x: int)
    ensures (Wrap32(x) - x) % 0x1_0000_0000 == 0
    ensures Wrap32(x) == x <==> -0x8000_0000 <= x < 0x8000_0000
  {
  }

  /** A sum or difference is the 32-bit integer nearest to the real one, and a boxed value the nearest in the box. */
  lemma NearestResults(a: i32, b: i32, m: int)
    ensures -0x8000_0000 <= m <= 0x7FFF_FFFF ==> Abs(QAdd(a, b) - (a + b)) <= Abs(m - (a + b))
    ensures -0x8000_0000 <= m <= 0x7FFF_FFFF ==> Abs(QSub(a, b) - (a - b)) <= Abs(m - (a - b))
    ensures -0x8_0000 <= ClampQ(a) <= 0x8_0000
    ensures -0x8_0000 <= m <= 0x8_0000 ==> Abs(ClampQ(a) - a) <= Abs(m - a)
    ensures QRelu(a) >= 0 && (m >= 0 ==> Abs(QRelu(a) - a) <= Abs(m - a))
  {
  }

  /** So sums depend on the order of their terms once they saturate. */
  lemma OrderMatters()
    ensures QAdd(QAdd(0x7FFF_FFFF, 1), -1) == 0x7FFF_FFFE && QAdd(0x7FFF_FFFF, QAdd(1, -1)) == 0x7FFF_FFFF
  {
  }

  /** When the operands are small enough the 32-bit truncation does nothing. */
  lemma QMulExact(a: i32, b: i32, A: nat, B: nat, R: nat)
    requires Abs(a) <= A && Abs(b) <= B
    requires A * B <= R * 0x1_0000 && R <= 0x7FFF_FFFF
    ensures QMul(a, b) == (a * b) / 0x1_0000
    ensures Abs(QMul(a, b)) <= R
  {
    ProductBound(a, b, A, B);
  }

  /** A zero operand annihilates; this is what keeps dead units and blank pixels untouched. */
  lemma QMulZero(a: i32)
    ensures QMul(0, a) == 0 && QMul(a, 0) == 0
  {
  }
}
