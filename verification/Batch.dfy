/**
 How many pads go into one batch (apps/mesh-miner-gpu/src/engine.rs, `luck_batch_cap`,
 `scratch_budget_bytes`, `clamp_batch_xfer`).
 */
module Batch {
  import opened Machine

  const MAX_PARALLEL_PADS: nat := 1024
  const MIB: nat := 1024 * 1024
  const MAX_HOST_FILL: nat := 2048 * MIB
  const MAX_OPENCL_XFER: nat := 512 * MIB
  const DEFAULT_BUDGET: nat := 128 * MIB
  const MIN_BUDGET: nat := 64 * MIB
  const MAX_VRAM_BATCH: nat := 4096 * MIB
  const MAX_LUCK_BATCH: u32 := 32

  function Shifted(d: nat): (r: nat)
    ensures r > 0
  {
    if d == 0 then 1 else 2 * Shifted(d - 1)
  }

  function LuckCap(difficulty: u32): u32 {
    Clamp(Min(Min(Shifted(Min(difficulty, 16)), MAX_U32) * 4, MAX_U32), 8, MAX_LUCK_BATCH)
  }

  lemma {:induction false} ShiftedGrows(a: nat, b: nat)
    requires a <= b
    ensures Shifted(a) <= Shifted(b)
  {
    if a < b {
      ShiftedGrows(a, b - 1);
    }
  }

  /** A harder target never shrinks the cap, and it stays between 8 and 32. */
  lemma LuckCapMonotone(a: u32, b: u32)
    requires a <= b
    ensures 8 <= LuckCap(a) <= LuckCap(b) <= 32
  {
    hide Shifted;
    ShiftedGrows(Min(a, 16), Min(b, 16));
  }

  /** It takes only three values. */
  lemma LuckCapValues(d: u32)
    ensures LuckCap(d) == if d <= 1 then 8 else if d == 2 then 16 else 32
  {
    assert Shifted(1) == 2 && Shifted(2) == 4 && Shifted(3) == 8;
    if d > 3 {
      ShiftedGrows(3, Min(d, 16));
    }
  }

  function Budget(vram: Option<u64>): nat {
    if vram.Some? && vram.value > 0 then
      Clamp(Min(vram.value * 40, MAX_U64) / 100, MIN_BUDGET, MAX_VRAM_BATCH)
    else DEFAULT_BUDGET
  }

  /** `(limit / pad).max(1) as u32`, at most 1024. */
  function PadsWithin(limit: nat, pad: nat): nat
    requires pad > 0
  {
    Min(Max(limit / pad, 1) % 0x1_0000_0000, MAX_PARALLEL_PADS)
  }

  /** Two pads or more are within the count just when they are no more than 1024 and fit the limit. */
  lemma WithinMeaning(limit: nat, pad: nat, b: nat)
    requires pad >= 64 && limit <= MAX_VRAM_BATCH && b >= 2
    ensures 1 <= PadsWithin(limit, pad) <= MAX_PARALLEL_PADS
    ensures b <= PadsWithin(limit, pad) <==> b <= MAX_PARALLEL_PADS && b * pad <= limit
  {
    var q := limit / pad;
    assert q <= limit / 64 < 0x1_0000_0000 by { SmallQuotient(limit, pad); }
    QuotientMeaning(limit, pad, b);
  }

  lemma SmallQuotient(limit: nat, pad: nat)
    requires pad >= 64
    ensures limit / pad <= limit / 64
  {
    QuotientMeaning(limit, 64, limit / pad);
    QuotientMeaning(limit, pad, limit / pad);
    assert (limit / pad) * 64 <= (limit / pad) * pad;
  }

  lemma QuotientMeaning(n: nat, d: nat, b: nat)
    requires d > 0
    ensures b <= n / d <==> b * d <= n
  {
    var q := n / d;
    assert n == q * d + n % d;
    if b <= q {
      assert b * d <= q * d;
    } else {
      assert b * d >= (q + 1) * d == q * d + d;
    }
  }

  /** A batch size the card, the host buffer, the transfer path and the odds all allow. */
  predicate Allowed(b: nat, pad: nat, vram: Option<u64>, hostRoundtrip: bool, difficulty: Option<u32>) {
    && b <= 1024 && b * pad <= Budget(vram) && b * pad <= 0x8000_0000
    && (hostRoundtrip ==> b * pad <= 0x2000_0000)
    && (difficulty.Some? ==> b <= LuckCap(difficulty.value))
  }

  /**
   On a GPU the automatic size is the largest allowed one, or 1 if not even two pads are; a size the user
   asks for is cut to it. On a CPU it is sixteen nonces a thread, or what the user asks for, up to 1024.
   */
  method ClampBatch(userBatch: u32, padSize: nat, vram: Option<u64>, hostRoundtrip: bool, difficulty: Option<u32>,
                    threads: u32)
    returns (r: nat)
    ensures 1 <= r <= 1024
    ensures vram.Some? && r > 1 ==> Allowed(r, Max(padSize, 64), vram, hostRoundtrip, difficulty)
    ensures vram.Some? ==> forall b: nat :: b > r && (userBatch == 0 || b <= userBatch) ==>
      !Allowed(b, Max(padSize, 64), vram, hostRoundtrip, difficulty)
    ensures userBatch > 0 ==> r <= userBatch
    ensures vram.None? ==>
      r == if userBatch > 0 then Min(userBatch, 1024) else if threads >= 64 then 1024 else 16 * Max(threads, 1)
  {
    hide PadsWithin, Budget, LuckCap;
    var pad := Max(padSize, 64);
    if vram.None? {
      var t := Max(threads, 1);
      var auto := Min(Max(Min(t * 16, MAX_U32), t), MAX_PARALLEL_PADS);
      return if userBatch == 0 then auto else Min(Max(userBatch, 1), MAX_PARALLEL_PADS);
    }
    BudgetRange(vram);
    var cap := Min(PadsWithin(Budget(vram), pad), PadsWithin(MAX_HOST_FILL, pad));
    if hostRoundtrip {
      cap := Min(cap, PadsWithin(MAX_OPENCL_XFER, pad));
    }
    if difficulty.Some? {
      cap := Min(cap, LuckCap(difficulty.value));
      LuckCapMonotone(difficulty.value, difficulty.value);
    }
    WithinMeaning(Budget(vram), pad, 2);
    WithinMeaning(MAX_HOST_FILL, pad, 2);
    WithinMeaning(MAX_OPENCL_XFER, pad, 2);
    forall b: nat | b >= 2 ensures b <= cap <==> Allowed(b, pad, vram, hostRoundtrip, difficulty) {
      WithinMeaning(Budget(vram), pad, b);
      WithinMeaning(MAX_HOST_FILL, pad, b);
      WithinMeaning(MAX_OPENCL_XFER, pad, b);
    }
    r := if userBatch == 0 then Max(cap, 1) else Min(Max(userBatch, 1), cap);
  }

  /** Two fifths of the card, within fixed limits; a card that reports nothing counts as unknown. */
  lemma BudgetRange(vram: Option<u64>)
    ensures MIN_BUDGET <= Budget(vram) <= MAX_VRAM_BATCH
    ensures vram.Some? && 160 * MIB <= vram.value <= 10 * 1024 * MIB ==>
      100 * Budget(vram) <= 40 * vram.value < 100 * Budget(vram) + 100
    ensures vram.Some? && 0 < vram.value <= 160 * MIB ==> Budget(vram) == 64 * MIB
    ensures vram.Some? && vram.value >= 10 * 1024 * MIB ==> Budget(vram) == 4096 * MIB
    ensures vram.None? || vram.value == 0 ==> Budget(vram) == 128 * MIB
  {
  }
}
