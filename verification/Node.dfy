/**
 What counts as a winning nonce (crates/meshhash-cpu/src/lib.rs; apps/mesh-miner-gpu/src/engine.rs):
 a node fills the nonce's pad, mixes it, folds it and tests the digest. Every search, on whatever
 hardware, answers for these winners.
 */
module Node {
  import opened Machine
  import opened Pads
  import opened Mix
  import opened Fold

  /** What a block asks for: the hash function, the proof-of-work parameters, the difficulty test. */
  datatype Puzzle = Puzzle(h: Hash, p: Params, meets: Digest -> bool)

  datatype Outcome = Found(nonce: nat) | Nothing | Failed

  const WINDOW: nat := 0x1_0000_0000

  /** `x as u32`. */
  function Truncated(x: nat): u32 { x % WINDOW }

  predicate Minable(p: Params, len: nat) { PadSize(len) && Foldable(p, len) }

  /** The digest of a filled pad: `mix_rounds` is a machine word, and all its rounds are mixed. */
  function NodeDigest(h: Hash, p: Params, pad: Bytes): Digest
    requires Minable(p, |pad|)
  {
    FoldPow(h, p, Mixed(pad, p.mixRounds, p.version))
  }

  predicate PadWins(z: Puzzle, pad: Bytes) {
    Minable(z.p, |pad|) && z.meets(NodeDigest(z.h, z.p, pad))
  }

  /** Nonce x wins. */
  function NonceWins(z: Puzzle, fill: nat -> Bytes): nat -> bool { (x: nat) => PadWins(z, fill(x)) }

  /** Pad i of a buffer of filled pads wins; false past its end. */
  function SlotWins(z: Puzzle, host: Bytes, len: nat): nat -> bool {
    (i: nat) => i * len + len <= |host| && PadWins(z, PadAt(host, len, i))
  }

  ghost predicate NoneBelow(wins: nat -> bool, n: nat) {
    forall x :: 0 <= x < n ==> !wins(x)
  }

  /** The CPU's own way to the digest: mix the pad in place, fold it. */
  method DigestOnCpu(h: Hash, p: Params, pad: array<byte>) returns (d: Digest)
    requires Minable(p, pad.Length)
    modifies pad
    ensures d == NodeDigest(h, p, old(pad[..]))
  {
    MixOnCpu(pad, p.mixRounds, p.version);
    d := FoldOnCpu(h, p, pad[..]);
  }

  /** Fill, mix, fold and test one nonce, in a pad of the thread's own. */
  method TestNonce(z: Puzzle, fill: nat -> Bytes, len: nat, nonce: nat) returns (won: bool)
    requires Minable(z.p, len) && |fill(nonce)| == len
    ensures won == NonceWins(z, fill)(nonce)
  {
    var bytes := fill(nonce);
    var pad := new byte[len](i requires 0 <= i < len => bytes[i]);
    assert pad[..] == bytes;
    var d := DigestOnCpu(z.h, z.p, pad);
    won := z.meets(d);
  }
}
