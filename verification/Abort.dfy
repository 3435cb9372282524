/**
 What runs beside the thread that searches (apps/mesh-miner-gpu/src/engine.rs, `work_aborted`,
 `search_nonces`): others, who may raise the stop and stale flags at any moment, and perhaps a
 fill of the next batch. Nobody lowers a flag while a search runs, and the search never raises
 one itself.

 Every look at the flags is a point where the rest of the machine may have moved on.
 */
module Abort {
  import opened PadFill

  datatype Background = Idle | Busy(job: Job, state: State)

  /** A fill under way is always a legal state of its job. */
  type Side = s: Background | SideValid(s) witness Idle

  ghost predicate SideValid(s: Background) {
    s.Busy? ==> s.job.Valid() && Inv(s.job, s.state)
  }

  /** Its threads gave up only for a flag that is up. */
  predicate Honest(s: Side, raised: bool) {
    s.Busy? && s.state.aborted ==> raised
  }

  ghost predicate SameFill(a: Side, b: Side) {
    a.Busy? == b.Busy? && (a.Busy? ==> a.job == b.job)
  }

  class Flags {
    /** Whether the others leave the flags alone for the whole search. */
    const quiet: bool

    var raised: bool
    var side: Side

    constructor (quiet: bool)
      ensures this.quiet == quiet && !raised && side == Idle
    {
      this.quiet := quiet;
      raised, side := false, Idle;
    }

    /** Later than a look that saw `before` and `side0`: only others raise flags, and a fill stays the same fill. */
    ghost predicate Later(before: bool, side0: Side)
      reads this
    {
      && (before ==> raised) && (raised && !before ==> !quiet)
      && SameFill(side0, side)
      && (Honest(side0, before) ==> Honest(side, raised))
    }

    /** Read both flags, after the others have done as much as they liked. */
    method Poll() returns (b: bool)
      modifies this
      ensures Later(old(raised), old(side))
      ensures b == raised
    {
      var turns: nat :| true;
      for k := 0 to turns
        invariant Later(old(raised), old(side))
      {
        Elsewhere();
      }
      b := raised;
    }

    /** One thing that happens elsewhere. */
    method Elsewhere()
      modifies this
      ensures Later(old(raised), old(side))
    {
      var meddled: bool := *;
      if meddled && !quiet {
        raised := true;
      }
      if side.Busy? {
        var t := FindRunning(side.state.pcs);
        if t < |side.state.pcs| {
          FillTurn(t);
        }
      }
    }

    /** Thread t of the fill looks at the flags and stops, or fills its next pad. */
    method FillTurn(t: nat)
      requires side.Busy? && t < |side.state.pcs| && side.state.pcs[t].At?
      modifies this`side
      ensures SameFill(old(side), side) && (Honest(old(side), raised) ==> Honest(side, raised))
      ensures TurnsLeft(side) < TurnsLeft(old(side))
    {
      hide Inv;
      var next := Advance(side.job, side.state, t, raised);
      side := Busy(side.job, next);
    }
  }

  function TurnsLeft(s: Side): nat {
    if s.Busy? && |s.state.pcs| == |s.job.slices| then Work(s.state.pcs, s.job.slices) else 0
  }
}
