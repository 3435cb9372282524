/**
 Two crews of host threads over one batch: those that fold pads already mixed
 (apps/mesh-miner-gpu/src/host_pads.rs, `fold_pads_parallel`) and those of the CPU miner, which
 fill, mix and fold a nonce at a time (engine.rs, `search_batch_once`). Both are runs of the state
 machine in `PadFold`; here its tests are carried out.
 */
module HostFold {
  import opened Machine
  import opened Slices
  import opened Pads
  import opened Abort
  import opened Fold
  import opened Node
  import PadFold

  /** Pad i of a buffer of mixed pads folds to a winning digest. */
  function MixedWins(z: Puzzle, mixed: Bytes, len: nat): nat -> bool {
    (i: nat) => i * len + len <= |mixed| && Foldable(z.p, len) && z.meets(FoldPow(z.h, z.p, PadAt(mixed, len, i)))
  }

  /** What either crew may be relied on for: a winner of the batch, or no flag up and none there. */
  ghost predicate CrewResult(wins: nat -> bool, start: nat, n: nat, r: Option<u64>, raised: bool) {
    match r
    case Some(x) => start <= x < start + n && wins(x - start)
    case None => raised || NoneBelow(wins, n)
  }

  lemma CrewMeaning(k: PadFold.Task, r: Option<u64>, raised: bool)
    requires PadFold.FoldResult(k, r, raised) && k.start + k.n <= MAX_U64
    ensures CrewResult(k.wins, k.start, k.n, r, raised)
  {
    hide PadFold.FirstOfSome;
    if r.None? && !raised {
      forall i | 0 <= i < k.n ensures !k.wins(i) {
        assert !k.Hit(i);
      }
    }
  }

  /** `fold_pads_parallel`: however long the buffer, each whole pad in it is folded until one wins. */
  method FoldHostPads(z: Puzzle, host: Bytes, len: nat, start: nat, threads: nat, flags: Flags) returns (r: Option<u64>)
    requires threads > 0 && (len > 0 ==> Foldable(z.p, len)) && start + PadCount(|host|, len) <= MAX_U64
    modifies flags
    ensures flags.Later(old(flags.raised), old(flags.side))
    ensures CrewResult(MixedWins(z, host, len), start, PadCount(|host|, len), r, flags.raised)
  {
    hide Covers, DivCeil, SlicesFrom, PadFold.Enabled, PadFold.After;
    hide PadFold.Inv, PadFold.Work, MixedWins, FoldPow, PadCount, Foldable;
    WholePads(|host|, len);
    if len == 0 || |host| < len {
      return None;
    }
    var n := PadCount(|host|, len);
    var slices := SplitPads(n, Max(Min(threads, n), 1));
    SlicesCover(0, n, DivCeil(n, Max(Min(threads, n), 1)));
    var k := PadFold.Task(MixedWins(z, host, len), start, n, slices);
    var s := PadFold.Initial(k);
    PadFold.InitialInv(k);
    var running := true;
    while running
      invariant PadFold.Inv(k, s) && |s.pcs| == |slices|
      invariant s.aborted ==> flags.raised
      invariant flags.Later(old(flags.raised), old(flags.side))
      invariant !running ==> PadFold.Joined(s)
      decreases PadFold.Work(s.pcs, slices), if running then 1 else 0
    {
      var t := PadFold.FindRunning(s.pcs);
      if t == |s.pcs| {
        running := false;
      } else {
        var seen := flags.Poll();
        var late: bool := *;
        var won := false;
        if PadFold.NextTurn(s, t, seen, late).Tests? {
          PadFold.AtInside(k, s, t);
          won := FoldSlot(z, host, len, n, s.pcs[t].j);
        }
        s := PadFold.Advance(k, s, t, seen, late, won);
      }
    }
    PadFold.JoinedFold(k, s, flags.raised);
    r := if s.found == PadFold.UNFOUND then None else Some(s.found);
    CrewMeaning(k, r, flags.raised);
  }

  method FoldSlot(z: Puzzle, host: Bytes, len: nat, n: nat, i: nat) returns (won: bool)
    requires Foldable(z.p, len) && i < n && n * len <= |host|
    ensures won == MixedWins(z, host, len)(i)
  {
    PadFits(i, n, len);
    var d := FoldOnCpu(z.h, z.p, PadAt(host, len, i));
    won := z.meets(d);
  }

  /** How many whole pads a buffer holds. */
  function PadCount(size: nat, len: nat): nat { if len == 0 then 0 else size / len }

  lemma WholePads(size: nat, len: nat)
    ensures PadCount(size, len) * len <= size
    ensures PadCount(size, len) > 0 <==> 0 < len <= size
  {
    if len > 0 {
      assert size == size / len * len + size % len;
    }
  }

  /** The CPU arm of `search_batch_once`: fill, mix and fold each nonce on some thread; the first found ends it. */
  method SearchBatchOnCpu(z: Puzzle, fill: nat -> Bytes, len: nat, start: nat, n: nat, threads: nat, flags: Flags)
    returns (r: Option<u64>)
    requires threads > 0 && Minable(z.p, len) && start + n <= MAX_U64 && forall x :: |fill(x)| == len
    modifies flags
    ensures flags.Later(old(flags.raised), old(flags.side))
    ensures r.Some? ==> start <= r.value < start + n && NonceWins(z, fill)(r.value)
    ensures r.None? && !flags.raised ==> forall x :: start <= x < start + n ==> !NonceWins(z, fill)(x)
  {
    hide Covers, DivCeil, SlicesFrom, PadFold.Enabled, PadFold.After, PadFold.Inv, PadFold.Work, NonceWins;
    if n == 0 {
      return None;
    }
    var slices := SplitBatch(n, threads);
    SlicesCover(0, n, DivCeil(n, threads));
    var wins := NonceWins(z, fill);
    var k := PadFold.Task((i: nat) => wins(start + i), start, n, slices);
    var s := PadFold.Initial(k);
    PadFold.InitialInv(k);
    var running := true;
    while running
      invariant PadFold.Inv(k, s) && |s.pcs| == |slices|
      invariant s.aborted ==> flags.raised
      invariant flags.Later(old(flags.raised), old(flags.side))
      invariant !running ==> PadFold.Joined(s)
      decreases PadFold.Work(s.pcs, slices), if running then 1 else 0
    {
      var t := PadFold.FindRunning(s.pcs);
      if t == |s.pcs| {
        running := false;
      } else {
        var seen := flags.Poll();
        var late: bool := *;
        var won := false;
        if PadFold.NextTurn(s, t, seen, late).Tests? {
          won := TestNonce(z, fill, len, start + s.pcs[t].j);
        }
        s := PadFold.Advance(k, s, t, seen, late, won);
      }
    }
    PadFold.JoinedFold(k, s, flags.raised);
    r := if s.found == PadFold.UNFOUND then None else Some(s.found);
    CrewMeaning(k, r, flags.raised);
    if r.None? && !flags.raised {
      forall x | start <= x < start + n ensures !wins(x) {
        assert !k.wins(x - start);
      }
    }
  }
}
