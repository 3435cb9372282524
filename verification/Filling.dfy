/**
 The fill of a batch, in the foreground for the first one and beside the device for the others
 (apps/mesh-miner-gpu/src/host_pads.rs, `fill_pads_parallel`; engine.rs, the `scope.spawn`).
 */
module Filling {
  import opened Machine
  import opened Slices
  import opened Pads
  import opened PadFill
  import opened Abort

  /** A fill of n pads has been started: its threads may now run. */
  ghost predicate Started(s: Side, fill: nat -> Bytes, start: nat, n: nat, len: nat) {
    s.Busy? && s.job.fill == fill && s.job.start == start && s.job.n == n && s.job.padLen == len
  }

  /** The part of `fill_pads_parallel` before its threads run. There must be something to fill. */
  method StartFill(fill: nat -> Bytes, start: nat, n: nat, len: nat, threads: nat, flags: Flags)
    requires threads > 0 && n > 0 && forall x :: |fill(x)| == len
    modifies flags`side
    ensures Started(flags.side, fill, start, n, len) && Honest(flags.side, flags.raised)
  {
    hide Covers, Inv;
    var chunk := Max(Min(threads, n), 1);
    var slices := SplitPads(n, chunk);
    SlicesCover(0, n, DivCeil(n, chunk));
    var p := Job(fill, start, n, len, slices);
    InitialInv(p);
    flags.side := Busy(p, Initial(p));
  }

  /** Wait for the threads; a buffer only if no flag is up at the end. */
  method JoinFill(flags: Flags) returns (r: Option<Bytes>)
    requires flags.side.Busy? && Honest(flags.side, flags.raised)
    modifies flags
    ensures (old(flags.raised) ==> flags.raised) && (flags.raised && !old(flags.raised) ==> !flags.quiet)
    ensures flags.side == Idle
    ensures r.Some? ==>
      r.value == Sequential(old(flags.side).job.fill, old(flags.side).job.start, old(flags.side).job.n)
    ensures r.None? ==> flags.raised
  {
    hide Inv, Sequential;
    var running := true;
    while running
      invariant flags.Later(old(flags.raised), old(flags.side))
      invariant flags.side.Busy? && (!running ==> Joined(flags.side.state))
      decreases TurnsLeft(flags.side), if running then 1 else 0
    {
      var t := FindRunning(flags.side.state.pcs);
      if t == |flags.side.state.pcs| {
        running := false;
      } else {
        var meddled: bool := *;
        if meddled && !flags.quiet {
          flags.raised := true;
        }
        flags.FillTurn(t);
      }
    }
    var done := flags.side;
    flags.side := Idle;
    var seen := flags.Poll();
    if seen {
      return None;
    }
    JoinedIsSequential(done.job, done.state);
    r := Some(done.state.host);
  }

  /** `fill_pads_parallel` in the foreground. */
  method FillPads(fill: nat -> Bytes, start: nat, n: nat, len: nat, threads: nat,
                  flags: Flags) returns (r: Option<Bytes>)
    requires threads > 0 && forall x :: |fill(x)| == len
    requires flags.side == Idle
    modifies flags
    ensures flags.Later(old(flags.raised), old(flags.side))
    ensures r.Some? ==> n > 0 && len >= 64 && r.value == Sequential(fill, start, n)
    ensures r.None? ==> n == 0 || len < 64 || flags.raised
  {
    if n == 0 || len < 64 {
      return None;
    }
    StartFill(fill, start, n, len, threads, flags);
    r := JoinFill(flags);
  }
}
