/**
 The fusion wave over a mixed pad: 32 lanes of 64 gather-and-compute steps folded into 32 bytes,
 on the CPU (crates/meshhash-cpu/src/fusion.rs) and in the extract kernel
 (apps/mesh-miner-gpu/cuda/meshhash_mix.cu).
 */
module Wave {
  import opened Machine
  import opened Text
  import opened Words

  const LANES: nat := 32
  const STEPS: nat := 64

  /** One program word per lane. */
  type Program = p: seq<u64> | |p| == LANES witness seq(LANES, _ => 0)

  predicate WaveSize(len: nat) { 64 <= len < TWO64 }

  // ---------- what the wave is ----------

  function ProgramInput(salt: u64, head: Bytes): Bytes { PutU64(salt) + head + Ascii("mesh-fusion") }

  function ProgramWord(digest: Digest, i: nat): u64
    requires i < LANES
  {
    var off := (i * 2) % 24;
    Xor(GetU64(digest[off..off + 8]), Mul64(i, 0x9E37_79B9_7F4A_7C15))
  }

  function ProgramOf(digest: Digest): Program {
    seq(LANES, i requires 0 <= i < LANES => ProgramWord(digest, i))
  }

  function AtLeastOne(r: nat): nat { Max(r, 1) }

  function Alu(op: byte, a: u64, b: u64): u64 {
    match op % 8
    case 0 => Add64(a, b)
    case 1 => Xor(a, b)
    case 2 => Xor(Rotl(a, AtLeastOne(b % 64)), b)
    case 3 => Mul64(a, Or(b, 1))
    case 4 => Add64(And(a, b), Or(a, b))
    case 5 => Sub64(a, Rotl(b, 11))
    case 6 => Add64(Rotr(a, AtLeastOne(b % 64)), b)
    case _ => Xor(a, Mul64(b, 0xD6E8_FEB8_6659_FD93))
  }

  function OpCode(word: u64, step: nat): byte { Xor(Wrap64(ShiftRight(word, step % 8 * 3)), Wrap64(step)) % 256 }

  function GatherOne(acc: u64, word: u64, len: nat): (x: nat)
    requires WaveSize(len)
    ensures x + 8 <= len
  {
    Address(Mul64(Xor(acc, word), 0x94D0_49BB_1331_11EB), len)
  }

  function GatherTwo(acc: u64, step: nat, len: nat): (x: nat)
    requires WaveSize(len)
    ensures x + 8 <= len
  {
    Address(Xor(Rotl(acc, 17), Wrap64(step)), len)
  }

  function LaneStep(prog: Program, lane: nat, pad: Bytes, acc: u64, step: nat): u64
    requires WaveSize(|pad|) && lane < LANES
  {
    var mid := Alu(OpCode(prog[lane], step), acc, Load(pad, GatherOne(acc, prog[step % LANES], |pad|)));
    Rotl(Add64(mid, Load(pad, GatherTwo(mid, step, |pad|))), 7)
  }

  /** A lane's register after k steps. */
  function LaneAfter(prog: Program, lane: nat, pad: Bytes, k: nat): u64
    requires WaveSize(|pad|) && lane < LANES
  {
    if k == 0 then Xor(prog[lane], Mul64(lane, 0xA076_1D64_78BD_642F))
    else LaneStep(prog, lane, pad, LaneAfter(prog, lane, pad, k - 1), k - 1)
  }

  function XorByte(a: byte, b: byte): byte { XorBits(a, b, 8) % 256 }

  function AddByte(a: int, b: int): byte { (a + b) % 256 }

  /** Byte i of a lane's register goes into two places of the accumulator, one after the other. */
  function ByteIn(acc: Digest, lane: nat, i: nat, x: byte): Digest
    requires i < 8
  {
    var once := acc[i := XorByte(acc[i], x)];
    var j := (i + lane) % 32;
    once[j := AddByte(once[j], x)]
  }

  function BytesIn(acc: Digest, lane: nat, word: u64, k: nat): Digest
    requires k <= 8
  {
    if k == 0 then acc else ByteIn(BytesIn(acc, lane, word, k - 1), lane, k - 1, PutU64(word)[k - 1])
  }

  function Zeros32(): Digest { seq(32, _ => 0) }

  /** The accumulator after the first n lanes. */
  function LanesIn(prog: Program, pad: Bytes, n: nat): Digest
    requires WaveSize(|pad|) && n <= LANES
  {
    if n == 0 then Zeros32()
    else BytesIn(LanesIn(prog, pad, n - 1), n - 1, LaneAfter(prog, n - 1, pad, STEPS), 8)
  }

  /** The wave of a pad under a salt, for the program its own head and the salt make. */
  function WaveOf(hash: Bytes -> Digest, pad: Bytes, salt: u64): Digest
    requires WaveSize(|pad|)
  {
    LanesIn(ProgramOf(hash(ProgramInput(salt, pad[..32]))), pad, LANES)
  }

  // ---------- on the CPU ----------

  /** `fusion_program_words`. */
  method ProgramWords(hash: Bytes -> Digest, salt: u64, head: Bytes) returns (prog: Program)
    requires |head| == 32
    ensures prog == ProgramOf(hash(ProgramInput(salt, head)))
  {
    hide PutU64, GetU64, Ascii, Xor, Mul64;
    var buf := PutU64(salt);
    buf := buf + head;
    buf := buf + Ascii("mesh-fusion");
    var b := hash(buf);
    var words: seq<u64> := [];
    for i := 0 to LANES
      invariant |words| == i && forall l :: 0 <= l < i ==> words[l] == ProgramWord(b, l)
    {
      var off := (i * 2) % 24;
      words := words + [Xor(GetU64(b[off..off + 8]), Mul64(i, 0x9E37_79B9_7F4A_7C15))];
    }
    prog := words;
  }

  /** `alu`. */
  method AluOnCpu(op: byte, a: u64, b: u64) returns (r: u64)
    ensures r == Alu(op, a, b)
  {
    match op % 8
    case 0 => r := Add64(a, b);
    case 1 => r := Xor(a, b);
    case 2 => r := Xor(Rotl(a, Max(b % 64, 1)), b);
    case 3 => r := Mul64(a, Or(b, 1));
    case 4 => r := Add64(And(a, b), Or(a, b));
    case 5 => r := Sub64(a, Rotl(b, 11));
    case 6 => r := Add64(Rotr(a, Max(b % 64, 1)), b);
    case _ => r := Xor(a, Mul64(b, 0xD6E8_FEB8_6659_FD93));
  }

  method WaveOnCpu(hash: Bytes -> Digest, pad: Bytes, salt: u64) returns (wave: Digest)
    requires WaveSize(|pad|)
    ensures wave == WaveOf(hash, pad, salt)
  {
    hide Alu, LaneStep, BytesIn, ProgramOf, ProgramInput;
    var prog := ProgramWords(hash, salt, pad[..32]);
    wave := Zeros32();
    for lane := 0 to LANES
      invariant wave == LanesIn(prog, pad, lane)
    {
      var acc := LaneOnCpu(prog, lane, pad);
      wave := FoldLane(wave, lane, acc);
    }
  }

  method LaneOnCpu(prog: Program, lane: nat, pad: Bytes) returns (acc: u64)
    requires WaveSize(|pad|) && lane < LANES
    ensures acc == LaneAfter(prog, lane, pad, STEPS)
  {
    hide Alu, Load, Address, Xor, Rotl, Add64, Mul64, ShiftRight, Wrap64;
    acc := Xor(prog[lane], Mul64(lane, 0xA076_1D64_78BD_642F));
    for step := 0 to STEPS
      invariant acc == LaneAfter(prog, lane, pad, step)
    {
      var idx := Address(Mul64(Xor(acc, prog[step % LANES]), 0x94D0_49BB_1331_11EB), |pad|);
      var word := Load(pad, idx);
      var op: byte := Xor(Wrap64(ShiftRight(prog[lane], step % 8 * 3)), Wrap64(step)) % 256;
      acc := AluOnCpu(op, acc, word);
      var idx2 := Address(Xor(Rotl(acc, 17), Wrap64(step)), |pad|);
      var word2 := Load(pad, idx2);
      acc := Rotl(Add64(acc, word2), 7);
    }
  }

  method FoldLane(acc: Digest, lane: nat, word: u64) returns (r: Digest)
    ensures r == BytesIn(acc, lane, word, 8)
  {
    hide PutU64, XorByte, AddByte;
    var laneBytes := PutU64(word);
    r := acc;
    for i := 0 to 8
      invariant r == BytesIn(acc, lane, word, i)
    {
      var x := laneBytes[i];
      r := r[i % 32 := XorByte(r[i % 32], x)];
      r := r[(i + lane) % 32 := AddByte(r[(i + lane) % 32], x)];
    }
  }

  // ---------- in the kernel ----------

  /** `mesh_fusion_alu`, which guards its rotations with a branch. */
  method AluOnDevice(op: byte, a: u64, b: u64) returns (v: u64)
    ensures v == Alu(op, a, b)
  {
    var code := op % 8;
    if code == 0 {
      v := Add64(a, b);
    } else if code == 1 {
      v := Xor(a, b);
    } else if code == 2 {
      var r := b % 64;
      if r == 0 { r := 1; }
      v := Xor(Rotl(a, r), b);
    } else if code == 3 {
      v := Mul64(a, Or(b, 1));
    } else if code == 4 {
      v := Add64(And(a, b), Or(a, b));
    } else if code == 5 {
      v := Sub64(a, Rotl(b, 11));
    } else if code == 6 {
      var r := b % 64;
      if r == 0 { r := 1; }
      v := Add64(Rotr(a, r), b);
    } else {
      v := Xor(a, Mul64(b, 0xD6E8_FEB8_6659_FD93));
    }
  }

  method LaneOnDevice(dev: array<byte>, base: nat, len: nat, prog: Program, lane: nat) returns (acc: u64)
    requires WaveSize(len) && base + len <= dev.Length && lane < LANES
    ensures acc == LaneAfter(prog, lane, dev[base..base + len], STEPS)
  {
    hide Alu, Load, Address, Xor, Rotl, Add64, Mul64, ShiftRight, Wrap64;
    ghost var pad := dev[base..base + len];
    assert dev[..][base..base + len] == pad;
    acc := Xor(prog[lane], Mul64(lane, 0xA076_1D64_78BD_642F));
    for step := 0 to STEPS
      invariant acc == LaneAfter(prog, lane, pad, step)
    {
      var idx := Address(Mul64(Xor(acc, prog[step % LANES]), 0x94D0_49BB_1331_11EB), len);
      LoadInWindow(dev[..], base, len, idx);
      var word := Load(dev[..], base + idx);
      var op: byte := Xor(Wrap64(ShiftRight(prog[lane], step % 8 * 3)), Wrap64(step)) % 256;
      acc := AluOnDevice(op, acc, word);
      var idx2 := Address(Xor(Rotl(acc, 17), Wrap64(step)), len);
      LoadInWindow(dev[..], base, len, idx2);
      var word2 := Load(dev[..], base + idx2);
      acc := Add64(acc, word2);
      acc := Rotl(acc, 7);
    }
  }

  /** `mesh_fusion_wave_one`: one thread's wave, in place in its 32 bytes of the output. */
  method WaveOnDevice(dev: array<byte>, base: nat, len: nat, prog: Program, out: array<byte>, at: nat)
    requires WaveSize(len) && base + len <= dev.Length && at + 32 <= out.Length && dev != out
    modifies out
    ensures out[at..at + 32] == LanesIn(prog, dev[base..base + len], LANES)
    ensures forall p :: 0 <= p < out.Length && !(at <= p < at + 32) ==> out[p] == old(out[p])
  {
    hide Alu, LaneAfter, BytesIn;
    ghost var pad := dev[base..base + len];
    Clear(out, at, at + 32);
    assert out[at..at + 32] == Zeros32();
    for lane := 0 to LANES
      invariant out[at..at + 32] == LanesIn(prog, pad, lane)
      invariant forall p :: 0 <= p < out.Length && !(at <= p < at + 32) ==> out[p] == old(out[p])
    {
      var acc := LaneOnDevice(dev, base, len, prog, lane);
      AddLane(out, at, lane, acc);
    }
  }

  method AddLane(out: array<byte>, at: nat, lane: nat, acc: u64)
    requires at + 32 <= out.Length
    modifies out
    ensures out[at..at + 32] == BytesIn(old(out[at..at + 32]), lane, acc, 8)
    ensures forall p :: 0 <= p < out.Length && !(at <= p < at + 32) ==> out[p] == old(out[p])
  {
    hide PutU64, XorByte, AddByte;
    ghost var before := out[at..at + 32];
    var laneBytes := PutU64(acc);
    for i := 0 to 8
      invariant out[at..at + 32] == BytesIn(before, lane, acc, i)
      invariant forall p :: 0 <= p < out.Length && !(at <= p < at + 32) ==> out[p] == old(out[p])
    {
      ghost var now := out[at..at + 32];
      var x := laneBytes[i];
      out[at + i] := XorByte(out[at + i], x);
      assert out[at..at + 32] == now[i := XorByte(now[i], x)];
      var j := (i + lane) % 32;
      out[at + j] := AddByte(out[at + j], x);
      assert out[at..at + 32] == ByteIn(now, lane, i, x);
    }
  }
}
