/**
 The scratchpad mix: the CPU reference (crates/meshhash-cpu/src/lib.rs), the device kernels
 that keep a pass's running state in a side buffer (apps/mesh-miner-gpu/cuda/meshhash_mix.cu,
 src/opencl_mix.rs), and the loop that cuts a pass into interruptible launches (engine.rs).

 A pad is any 8 bytes or more. An address is masked with the pad length less 8 and its low
 three bits are cleared, whatever the length.
 */
module Mix {
  import opened Machine
  import opened Abort
  import opened Pads
  import opened Words

  // ---------- the rounds ----------

  /** The running pad and the state register. */
  datatype Running = Running(pad: Bytes, state: u64)

  datatype Direction = Forward | Reverse

  predicate PadSize(len: nat) { 8 <= len < TWO64 }

  function ForwardWord(a: u64, b: u64, state: u64): u64 {
    Xor(Rotl(Add64(a, b), state % 63 + 1), Mul64(state, 0xD6E8_FEB8_6659_FD93))
  }

  function ReverseWord(a: u64, b: u64, state: u64): u64 {
    Xor(Rotr(Mul64(a, 0x94D0_49BB_1331_11EB), state % 63 + 1), Add64(b, state))
  }

  /** Where round i reads and writes, and where it reads a second word. */
  function FirstIndex(dir: Direction, state: u64, i: nat, total: nat, len: nat): (x: nat)
    requires PadSize(len) && i < total
    ensures x % 8 == 0 && x + 8 <= len
  {
    match dir
    case Forward => Address(Xor(state, Mul64(Wrap64(i), 0x9E37_79B9_7F4A_7C15)), len)
    case Reverse => Address(Xor(state, Mul64(Wrap64(total - 1 - i), 0xC2B2_AE3D_27D4_EB4F)), len)
  }

  function SecondIndex(dir: Direction, state: u64, a: u64, len: nat): (x: nat)
    requires PadSize(len)
    ensures x % 8 == 0 && x + 8 <= len
  {
    match dir
    case Forward => Address(Xor(Rotl(a, 17), state), len)
    case Reverse => Address(Xor(Rotr(a, 13), Rotl(state, 7)), len)
  }

  function NewWord(dir: Direction, a: u64, b: u64, state: u64): u64 {
    if dir.Forward? then ForwardWord(a, b, state) else ReverseWord(a, b, state)
  }

  function NextState(dir: Direction, state: u64, a: u64): u64 {
    Add64(Add64(state, a), if dir.Forward? then 0xA076_1D64_78BD_642F else 0x85EB_CA77_C2B2_AE63)
  }

  function Round(dir: Direction, r: Running, i: nat, total: nat): (r': Running)
    requires PadSize(|r.pad|) && i < total
    ensures |r'.pad| == |r.pad|
  {
    var x := FirstIndex(dir, r.state, i, total, |r.pad|);
    var a := Load(r.pad, x);
    var b := Load(r.pad, SecondIndex(dir, r.state, a, |r.pad|));
    var a' := NewWord(dir, a, b, r.state);
    Running(Store(r.pad, x, a'), NextState(dir, r.state, a'))
  }

  /** Rounds from, from + 1, ..., from + k - 1. */
  function Rounds(dir: Direction, r: Running, from: nat, k: nat, total: nat): (r': Running)
    requires PadSize(|r.pad|) && from + k <= total
    ensures |r'.pad| == |r.pad|
  {
    if k == 0 then r else Round(dir, Rounds(dir, r, from, k - 1, total), from + k - 1, total)
  }

  function FirstState(dir: Direction, pad: Bytes): u64
    requires PadSize(|pad|)
  {
    Load(pad, if dir.Forward? then 0 else |pad| - 8)
  }

  /** One uninterrupted pass. */
  function Pass(dir: Direction, pad: Bytes, rounds: nat): (r: Bytes)
    requires PadSize(|pad|)
    ensures |r| == |pad|
  {
    Rounds(dir, Running(pad, FirstState(dir, pad)), 0, rounds, rounds).pad
  }

  /** The mix of a proof-of-work version: forward, and from version 2 on also in reverse. */
  function Mixed(pad: Bytes, rounds: nat, version: nat): (r: Bytes)
    requires PadSize(|pad|)
    ensures |r| == |pad|
  {
    var forward := Pass(Forward, pad, rounds);
    if version >= 2 then Pass(Reverse, forward, rounds) else forward
  }

  /** Two stretches with the state carried over are one stretch. */
  lemma {:induction false} RoundsCompose(dir: Direction, r: Running, from: nat, a: nat, b: nat, total: nat)
    requires PadSize(|r.pad|) && from + a + b <= total
    ensures Rounds(dir, r, from, a + b, total) == Rounds(dir, Rounds(dir, r, from, a, total), from + a, b, total)
  {
    hide Round, PadSize;
    if b > 0 {
      RoundsCompose(dir, r, from, a, b - 1, total);
    }
  }

  // ---------- the loops ----------

  /** One forward round, in place on the pad at `base`. */
  method ForwardRound(dev: array<byte>, base: nat, len: nat, i: nat, total: nat, state: u64) returns (state': u64)
    requires PadSize(len) && base + len <= dev.Length && i < total
    modifies dev
    ensures Running(dev[base..base + len], state')
         == Round(Forward, Running(old(dev[base..base + len]), state), i, total)
    ensures forall p :: 0 <= p < dev.Length && !(base <= p < base + len) ==> dev[p] == old(dev[p])
  {
    hide Address, Xor, Rotl, Rotr, Wrap64, Add64, Mul64, Load, Store;
    ghost var all, before := dev[..], dev[base..base + len];
    assert all[base..base + len] == before;
    var idxA := Address(Xor(state, Mul64(Wrap64(i), 0x9E37_79B9_7F4A_7C15)), len);
    LoadInWindow(all, base, len, idxA);
    var a := Load(dev[..], base + idxA);
    var idxB := Address(Xor(Rotl(a, 17), state), len);
    LoadInWindow(all, base, len, idxB);
    var b := Load(dev[..], base + idxB);
    var rot := state % 63 + 1;
    a := Add64(a, b);
    a := Rotl(a, rot);
    a := Xor(a, Mul64(state, 0xD6E8_FEB8_6659_FD93));
    StoreWord(dev, base + idxA, a);
    state' := Add64(Add64(state, a), 0xA076_1D64_78BD_642F);
    StoreInWindow(all, base, len, idxA, a);
    assert dev[..][base..base + len] == dev[base..base + len];
    assert forall p :: 0 <= p < dev.Length ==> dev[p] == dev[..][p];
  }

  /** One reverse round; its first address counts down from the total. */
  method ReverseRound(dev: array<byte>, base: nat, len: nat, i: nat, total: nat, state: u64) returns (state': u64)
    requires PadSize(len) && base + len <= dev.Length && i < total
    modifies dev
    ensures Running(dev[base..base + len], state')
         == Round(Reverse, Running(old(dev[base..base + len]), state), i, total)
    ensures forall p :: 0 <= p < dev.Length && !(base <= p < base + len) ==> dev[p] == old(dev[p])
  {
    hide Address, Xor, Rotl, Rotr, Wrap64, Add64, Mul64, Load, Store;
    ghost var all, before := dev[..], dev[base..base + len];
    assert all[base..base + len] == before;
    var revI := total - 1 - i;
    var idxA := Address(Xor(state, Mul64(Wrap64(revI), 0xC2B2_AE3D_27D4_EB4F)), len);
    LoadInWindow(all, base, len, idxA);
    var a := Load(dev[..], base + idxA);
    var idxB := Address(Xor(Rotr(a, 13), Rotl(state, 7)), len);
    LoadInWindow(all, base, len, idxB);
    var b := Load(dev[..], base + idxB);
    var rot := state % 63 + 1;
    a := Mul64(a, 0x94D0_49BB_1331_11EB);
    a := Rotr(a, rot);
    a := Xor(a, Add64(b, state));
    StoreWord(dev, base + idxA, a);
    state' := Add64(Add64(state, a), 0x85EB_CA77_C2B2_AE63);
    StoreInWindow(all, base, len, idxA, a);
    assert dev[..][base..base + len] == dev[base..base + len];
    assert forall p :: 0 <= p < dev.Length ==> dev[p] == dev[..][p];
  }

  /** One thread's launch: `rounds` rounds in place on the pad at `base`, from round `startRound`. */
  method MixStretch(dir: Direction, dev: array<byte>, base: nat, len: nat, startRound: nat, rounds: nat, total: nat,
                    first: u64)
    returns (state: u64)
    requires PadSize(len) && base + len <= dev.Length && startRound + rounds <= total
    modifies dev
    ensures Running(dev[base..base + len], state)
         == Rounds(dir, Running(old(dev[base..base + len]), first), startRound, rounds, total)
    ensures forall p :: 0 <= p < dev.Length && !(base <= p < base + len) ==> dev[p] == old(dev[p])
  {
    hide Round, PadSize;
    ghost var start := Running(dev[base..base + len], first);
    state := first;
    for k := 0 to rounds
      invariant Running(dev[base..base + len], state) == Rounds(dir, start, startRound, k, total)
      invariant forall p :: 0 <= p < dev.Length && !(base <= p < base + len) ==> dev[p] == old(dev[p])
    {
      if dir.Forward? {
        state := ForwardRound(dev, base, len, startRound + k, total, state);
      } else {
        state := ReverseRound(dev, base, len, startRound + k, total, state);
      }
    }
  }

  /** The CPU reference on one pad. */
  method MixOnCpu(pad: array<byte>, rounds: nat, version: nat)
    requires PadSize(pad.Length)
    modifies pad
    ensures pad[..] == Mixed(old(pad[..]), rounds, version)
  {
    hide Rounds, Load;
    var unused := MixStretch(Forward, pad, 0, pad.Length, 0, rounds, rounds, Load(pad[..], 0));
    assert pad[0..pad.Length] == pad[..] && old(pad[0..pad.Length]) == old(pad[..]);
    if version >= 2 {
      ghost var mid := pad[..];
      unused := MixStretch(Reverse, pad, 0, pad.Length, 0, rounds, rounds, Load(pad[..], pad.Length - 8));
      assert pad[0..pad.Length] == pad[..];
    }
  }

  // ---------- a batch on the device ----------

  /** After `done` rounds of a pass over the pads `before`: this buffer, and the states beside it. */
  ghost predicate PassAt(dir: Direction, before: Bytes, dev: Bytes, states: seq<u64>, len: nat, count: nat,
                         done: nat, total: nat)
    requires PadSize(len) && done <= total
  {
    && |dev| == |before| && count * len <= |dev| && count <= |states|
    && forall s :: 0 <= s < count ==> SlotAt(dir, before, dev, states, len, s, done, total)
  }

  ghost predicate SlotAt(dir: Direction, before: Bytes, dev: Bytes, states: seq<u64>, len: nat, s: nat, done: nat,
                         total: nat)
    requires PadSize(len) && done <= total
  {
    && s * len + len <= |dev| == |before| && s < |states|
    && var start := PadAt(before, len, s);
       var r := Rounds(dir, Running(start, FirstState(dir, start)), 0, done, total);
       PadAt(dev, len, s) == r.pad && (done > 0 ==> states[s] == r.state)
  }

  /**
   One launch over the whole batch: every pad moves on by `rounds`, from its own state slot unless the
   pass begins.
   */
  method LaunchRange(dir: Direction, dev: array<byte>, states: array<u64>, len: nat, done: nat, rounds: nat, count: nat,
                     total: nat, ghost before: Bytes)
    requires PadSize(len) && done + rounds <= total && rounds > 0
    requires PassAt(dir, before, dev[..], states[..], len, count, done, total)
    modifies dev, states
    ensures PassAt(dir, before, dev[..], states[..], len, count, done + rounds, total)
  {
    hide SlotAt, PadSize;
    ghost var after := done + rounds;
    for s := 0 to count
      invariant forall t :: 0 <= t < s ==> SlotAt(dir, before, dev[..], states[..], len, t, after, total)
      invariant forall t :: s <= t < count ==> SlotAt(dir, before, dev[..], states[..], len, t, done, total)
    {
      ghost var dev0, states0 := dev[..], states[..];
      LaunchOne(dir, dev, states, len, done, rounds, s, total, before);
      forall t | 0 <= t < s ensures SlotAt(dir, before, dev[..], states[..], len, t, after, total) {
        SlotKept(dir, before, dev0, dev[..], states0, states[..], len, s, t, after, total);
      }
      forall t | s < t < count ensures SlotAt(dir, before, dev[..], states[..], len, t, done, total) {
        SlotKept(dir, before, dev0, dev[..], states0, states[..], len, s, t, done, total);
      }
    }
  }

  method LaunchOne(dir: Direction, dev: array<byte>, states: array<u64>, len: nat, done: nat, rounds: nat, s: nat,
                   total: nat, ghost before: Bytes)
    requires PadSize(len) && done + rounds <= total && rounds > 0
    requires SlotAt(dir, before, dev[..], states[..], len, s, done, total)
    modifies dev, states
    ensures SlotAt(dir, before, dev[..], states[..], len, s, done + rounds, total)
    ensures forall p :: 0 <= p < dev.Length && !(s * len <= p < s * len + len) ==> dev[p] == old(dev[p])
    ensures forall t :: 0 <= t < states.Length && t != s ==> states[t] == old(states[t])
  {
    hide Rounds, Load, PadAt, FirstState;
    var base := s * len;
    ghost var start := PadAt(before, len, s);
    SlotWindow(dev[..], len, s);
    assert dev[..][base..base + len] == dev[base..base + len];
    NoRounds(dir, Running(start, FirstState(dir, start)), total);
    SlotFirst(dir, dev[..], len, s);
    var first := if done == 0 then Load(dev[..], if dir.Forward? then base else base + len - 8) else states[s];
    var state := MixStretch(dir, dev, base, len, done, rounds, total, first);
    states[s] := state;
    SlotWindow(dev[..], len, s);
    assert dev[..][base..base + len] == dev[base..base + len];
    RoundsCompose(dir, Running(start, FirstState(dir, start)), 0, done, rounds, total);
  }

  lemma SlotWindow(dev: Bytes, len: nat, s: nat)
    requires s * len + len <= |dev|
    ensures PadAt(dev, len, s) == dev[s * len..s * len + len]
  {
  }

  lemma SlotFirst(dir: Direction, dev: Bytes, len: nat, s: nat)
    requires PadSize(len) && s * len + len <= |dev|
    ensures FirstState(dir, PadAt(dev, len, s)) == Load(dev, if dir.Forward? then s * len else s * len + len - 8)
  {
    hide Load;
    LoadInWindow(dev, s * len, len, if dir.Forward? then 0 else len - 8);
  }

  lemma NoRounds(dir: Direction, r: Running, total: nat)
    requires PadSize(|r.pad|)
    ensures Rounds(dir, r, 0, 0, total) == r
  {
  }

  /** Work on slot s leaves slot t alone. */
  lemma SlotKept(dir: Direction, before: Bytes, dev0: Bytes, dev: Bytes, states0: seq<u64>, states: seq<u64>,
                 len: nat, s: nat, t: nat, done: nat, total: nat)
    requires PadSize(len) && done <= total && t != s
    requires |dev| == |dev0| && |states| == |states0|
    requires forall p :: 0 <= p < |dev| && !(s * len <= p < s * len + len) ==> dev[p] == dev0[p]
    requires forall u :: 0 <= u < |states| && u != s ==> states[u] == states0[u]
    requires SlotAt(dir, before, dev0, states0, len, t, done, total)
    ensures SlotAt(dir, before, dev, states, len, t, done, total)
  {
    hide Rounds, PadAt, Load;
    if t < s {
      PadFits(t, s, len);
    } else {
      PadFits(s, t, len);
    }
    PadKept(dev0, dev, len, s, t);
  }

  lemma PadKept(dev0: Bytes, dev: Bytes, len: nat, s: nat, t: nat)
    requires |dev| == |dev0| && t * len + len <= |dev|
    requires t * len + len <= s * len || s * len + len <= t * len
    requires forall p :: 0 <= p < |dev| && !(s * len <= p < s * len + len) ==> dev[p] == dev0[p]
    ensures PadAt(dev, len, t) == PadAt(dev0, len, t)
  {
  }

  /** The interruptible pass: launches of at most `chunk` rounds until done, or until the flags are seen. */
  method MixInterruptible(dir: Direction, dev: array<byte>, states: array<u64>, len: nat, rounds: nat, count: nat,
                          chunk: nat, flags: Flags)
    returns (ok: bool)
    requires PadSize(len) && chunk > 0
    requires count * len <= dev.Length && count <= states.Length
    modifies dev, states, flags
    ensures flags.Later(old(flags.raised), old(flags.side))
    ensures !ok ==> flags.raised
    ensures ok ==> forall s :: 0 <= s < count ==> PadMoved(dir, old(dev[..]), dev[..], len, s, rounds)
  {
    hide SlotAt, PadSize;
    ghost var before := dev[..];
    PassStarts(dir, before, states[..], len, count, rounds);
    var done := 0;
    while done < rounds
      invariant done <= rounds
      invariant flags.Later(old(flags.raised), old(flags.side))
      invariant PassAt(dir, before, dev[..], states[..], len, count, done, rounds)
    {
      var seen := flags.Poll();
      if seen {
        return false;
      }
      var n := Min(chunk, rounds - done);
      LaunchRange(dir, dev, states, len, done, n, count, rounds, before);
      done := done + n;
    }
    ok := true;
    forall s | 0 <= s < count ensures PadMoved(dir, before, dev[..], len, s, rounds) {
      SlotDone(dir, before, dev[..], states[..], len, s, rounds);
    }
  }

  /** The pass has been applied to pad s. */
  ghost predicate PadMoved(dir: Direction, before: Bytes, dev: Bytes, len: nat, s: nat, rounds: nat)
    requires PadSize(len)
  {
    && s * len + len <= |dev| == |before|
    && PadAt(dev, len, s) == Pass(dir, PadAt(before, len, s), rounds)
  }

  lemma SlotDone(dir: Direction, before: Bytes, dev: Bytes, states: seq<u64>, len: nat, s: nat, rounds: nat)
    requires PadSize(len) && SlotAt(dir, before, dev, states, len, s, rounds, rounds)
    ensures PadMoved(dir, before, dev, len, s, rounds)
  {
    hide Rounds;
  }

  lemma PassStarts(dir: Direction, before: Bytes, states: seq<u64>, len: nat, count: nat, total: nat)
    requires PadSize(len) && count * len <= |before| && count <= |states|
    ensures PassAt(dir, before, before, states, len, count, 0, total)
  {
    forall s | 0 <= s < count ensures SlotAt(dir, before, before, states, len, s, 0, total) {
      PadFits(s, count, len);
    }
  }

  /** Pad s of the buffer is what the CPU reference makes of it. */
  ghost predicate PadMixed(before: Bytes, dev: Bytes, len: nat, s: nat, rounds: nat, version: nat)
    requires PadSize(len)
  {
    && s * len + len <= |dev| == |before|
    && PadAt(dev, len, s) == Mixed(PadAt(before, len, s), rounds, version)
  }

  lemma ForwardOnly(before: Bytes, dev: Bytes, len: nat, s: nat, rounds: nat, version: nat)
    requires PadSize(len) && version < 2 && PadMoved(Forward, before, dev, len, s, rounds)
    ensures PadMixed(before, dev, len, s, rounds, version)
  {
    hide Pass, PadAt;
  }

  lemma BothWays(before: Bytes, mid: Bytes, dev: Bytes, len: nat, s: nat, rounds: nat, version: nat)
    requires PadSize(len) && version >= 2
    requires PadMoved(Forward, before, mid, len, s, rounds) && PadMoved(Reverse, mid, dev, len, s, rounds)
    ensures PadMixed(before, dev, len, s, rounds, version)
  {
    hide Pass;
  }

  /** `mix_rounds as u32`. */
  function DeviceRounds(mixRounds: nat): u32 { mixRounds % 0x1_0000_0000 }

  /**
   The device's whole mix of a batch: unless it was aborted, every pad is what the CPU reference
   makes of it, for any chunk size and version; the device counts rounds modulo 2^32.
   */
  method MixOnDevice(dev: array<byte>, states: array<u64>, len: nat, mixRounds: nat, count: nat, chunk: nat,
                     version: nat, flags: Flags)
    returns (ok: bool)
    requires PadSize(len) && chunk > 0
    requires count * len <= dev.Length && count <= states.Length
    modifies dev, states, flags
    ensures flags.Later(old(flags.raised), old(flags.side))
    ensures !ok ==> flags.raised
    ensures ok ==> forall s :: 0 <= s < count ==>
      PadMixed(old(dev[..]), dev[..], len, s, DeviceRounds(mixRounds), version)
  {
    hide PadMixed, PadMoved, PadSize;
    var rounds: u32 := mixRounds % 0x1_0000_0000;
    ghost var before := dev[..];
    ok := MixInterruptible(Forward, dev, states, len, rounds, count, chunk, flags);
    if !ok {
      return;
    }
    ghost var mid := dev[..];
    if version < 2 {
      forall s | 0 <= s < count ensures PadMixed(before, mid, len, s, rounds, version) {
        ForwardOnly(before, mid, len, s, rounds, version);
      }
      return;
    }
    ok := MixInterruptible(Reverse, dev, states, len, rounds, count, chunk, flags);
    if ok {
      forall s | 0 <= s < count ensures PadMixed(before, dev[..], len, s, rounds, version) {
        BothWays(before, mid, dev[..], len, s, rounds, version);
      }
    }
  }
}
