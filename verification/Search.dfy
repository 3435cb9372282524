/**
 The nonce search (apps/mesh-miner-gpu/src/engine.rs, `search_nonces`): on a GPU, batch N + 1 is
 filled on the host while batch N is mixed and folded on the device; on the CPU one batch follows
 another. Both answer for the winners of a node, as trying the nonces one by one would.
 */
module Search {
  import opened Machine
  import opened Pads
  import opened Abort
  import opened Filling
  import opened Node
  import opened HostFold
  import opened Device

  datatype Backend = Cuda | OpenCl

  // ---------- what a search has to say ----------

  /**
   An answer about the nonces below `reach`: a winner, which is in the first batch that has any and,
   if the batches are folded in order, is the least of all; or that there is none, unless a flag is up.
   */
  ghost predicate SearchResult(inOrder: bool, wins: nat -> bool, batch: nat, reach: nat, r: Outcome, raised: bool)
    requires batch > 0
  {
    match r
    case Found(x) =>
      && x < reach && wins(x)
      && NoneBelow(wins, x - x % batch)
      && (inOrder ==> NoneBelow(wins, x))
    case Nothing => raised || NoneBelow(wins, reach)
    case Failed => true
  }

  /**
   The two searches answer for the same winners: undisturbed, and for fewer than 2^32 nonces and
   rounds, one finds something just when the other does, in the same batch, and CUDA the lesser.
   */
  lemma SearchesAgree(z: Puzzle, fill: nat -> Bytes, cuda: bool, batch: nat, max: u64, gpu: Outcome, cpu: Outcome)
    requires batch > 0 && max < WINDOW && z.p.mixRounds < WINDOW && !gpu.Failed? && !cpu.Failed?
    requires SearchResult(cuda, NonceWins(DevicePuzzle(z), fill), batch, Truncated(max), gpu, false)
    requires SearchResult(false, NonceWins(z, fill), batch, Truncated(max), cpu, false)
    ensures gpu.Found? <==> cpu.Found?
    ensures gpu.Found? ==> gpu.nonce - gpu.nonce % batch == cpu.nonce - cpu.nonce % batch
    ensures gpu.Found? && cuda ==> gpu.nonce <= cpu.nonce
  {
    hide NonceWins, DevicePuzzle;
    SmallRoundsSamePuzzle(z);
    if gpu.Found? && cpu.Found? {
      var wins := NonceWins(z, fill);
      BatchFloor(gpu.nonce, batch);
      BatchFloor(cpu.nonce, batch);
      assert wins(gpu.nonce) && wins(cpu.nonce);
      SameFloor(gpu.nonce, cpu.nonce, batch);
    }
  }

  lemma BatchFloor(x: nat, batch: nat)
    requires batch > 0
    ensures 0 <= x - x % batch <= x
  {
  }

  /** Neither batch starts after the other's nonce. */
  lemma SameFloor(x: nat, y: nat, batch: nat)
    requires batch > 0 && x - x % batch <= y && y - y % batch <= x
    ensures x - x % batch == y - y % batch
  {
    var p, q := x / batch, y / batch;
    assert x == p * batch + x % batch && y == q * batch + y % batch;
    assert (p - q) * batch == p * batch - q * batch;
    MulGrows(p - q, batch);
  }

  // ---------- where batches start ----------

  /** The nonces the loop takes at `start`: `batch.min((max - start) as u32)`. */
  function BatchAt(batch: nat, max: u64, start: nat): nat
    requires start <= max
  {
    Min(batch, Truncated(max - start))
  }

  lemma BatchArithmetic(batch: nat, max: u64, start: nat)
    requires batch > 0 && start <= Truncated(max)
    ensures start <= Truncated(max) <= max
    ensures BatchAt(batch, max, start) == Min(batch, Truncated(max) - start)
    ensures start + BatchAt(batch, max, start) <= Truncated(max)
  {
    assert (max - start) % WINDOW == max % WINDOW - start;
  }

  /** Where the CPU loop stands after k batches without a winner. */
  function StartAfter(batch: nat, max: u64, k: nat): (s: nat)
    ensures s <= max
  {
    if k == 0 then 0
    else
      var s := StartAfter(batch, max, k - 1);
      if s < max then TakesNoMore(batch, max, s); s + BatchAt(batch, max, s) else s
  }

  lemma TakesNoMore(batch: nat, max: u64, s: nat)
    requires s < max
    ensures s + BatchAt(batch, max, s) <= max
  {
  }

  /** Every start the loop reaches is at most max mod 2^32, and after that many batches it stands there. */
  lemma {:induction false} StartsReached(batch: nat, max: u64, k: nat)
    requires batch > 0
    ensures Min(k, Truncated(max)) <= StartAfter(batch, max, k) <= Truncated(max)
  {
    hide Truncated, BatchAt;
    if k == 0 {
      BatchArithmetic(batch, max, 0);
    } else {
      StartsReached(batch, max, k - 1);
      BatchArithmetic(batch, max, StartAfter(batch, max, k - 1));
    }
  }

  /** After k batches it stands at k times the batch size, or at max mod 2^32 if that comes first. */
  lemma {:induction false} StartAfterIs(batch: nat, max: u64, k: nat)
    requires batch > 0
    ensures k * batch >= 0 && StartAfter(batch, max, k) == Min(k * batch, Truncated(max))
  {
    hide Truncated, BatchAt;
    TimesBatch(k, batch);
    if k > 0 {
      StartAfterIs(batch, max, k - 1);
      StartsReached(batch, max, k - 1);
      BatchArithmetic(batch, max, StartAfter(batch, max, k - 1));
    } else {
      BatchArithmetic(batch, max, 0);
    }
  }

  lemma TimesBatch(k: nat, batch: nat)
    ensures k * batch >= 0 && (k > 0 ==> k * batch == (k - 1) * batch + batch)
  {
  }

  /**
   The CPU loop gets through its nonces just when there are fewer than 2^32 of them. Otherwise it
   comes to max mod 2^32, where its batch is empty and it makes no more progress.
   */
  lemma CpuFinishesIff(batch: nat, max: u64)
    requires batch > 0
    ensures (exists k :: StartAfter(batch, max, k) == max) <==> max < WINDOW
    ensures max >= WINDOW ==>
      && Truncated(max) < max && BatchAt(batch, max, Truncated(max)) == 0
      && forall k :: k >= Truncated(max) ==> StartAfter(batch, max, k) == Truncated(max)
  {
    hide StartAfter;
    forall k: nat ensures Min(k, Truncated(max)) <= StartAfter(batch, max, k) <= Truncated(max) {
      StartsReached(batch, max, k);
    }
    if max < WINDOW {
      assert StartAfter(batch, max, max) == max;
    } else {
      BatchArithmetic(batch, max, Truncated(max));
    }
  }

  /** A finished GPU search speaks for every nonce it was given just when there are fewer than 2^32. */
  lemma GpuCoversAllIff(max: u64)
    ensures (forall wins :: NoneBelow(wins, Truncated(max)) ==> NoneBelow(wins, max)) <==> max < WINDOW
  {
    if max >= WINDOW {
      var wins: nat -> bool := x => x == Truncated(max);
      assert NoneBelow(wins, Truncated(max)) && wins(Truncated(max));
    }
  }

  // ---------- what is reported on the way ----------

  /** The sizes reported so far are those of the first batches: all full, but for the one that ends at `reach`. */
  ghost predicate Reported(batch: nat, reach: nat, sizes: seq<nat>) {
    forall i :: 0 <= i < |sizes| ==> i * batch < reach && sizes[i] == Min(batch, reach - i * batch)
  }

  /** The batches up to `start` have all been reported. */
  ghost predicate OnSchedule(batch: nat, reach: nat, sizes: seq<nat>, start: nat) {
    Reported(batch, reach, sizes) && |sizes| * batch == start
  }

  /** With no flag up, a winner lies in the last batch reported, and without one the whole reach is reported. */
  ghost predicate ReportResult(batch: nat, reach: nat, sizes: seq<nat>, r: Outcome, raised: bool) {
    && Reported(batch, reach, sizes)
    && (!raised ==>
          match r
          case Found(x) =>
            && |sizes| > 0
            && (|sizes| - 1) * batch <= x < (|sizes| - 1) * batch + sizes[|sizes| - 1]
          case Nothing => |sizes| * batch >= reach
          case Failed => true)
  }

  /** Where the reports stand before the batch at `start`. */
  ghost predicate Progress(batch: nat, reach: nat, sizes: seq<nat>, start: nat, raised: bool) {
    Reported(batch, reach, sizes) && (raised || OnSchedule(batch, reach, sizes, start))
  }

  lemma NothingReported(batch: nat, reach: nat, sizes: seq<nat>)
    requires sizes == []
    ensures forall raised :: Progress(batch, reach, sizes, 0, raised)
    ensures ReportResult(batch, reach, sizes, Nothing, true)
    ensures reach == 0 ==> forall raised :: ReportResult(batch, reach, sizes, Nothing, raised)
  {
  }

  /** Before a flag goes up everything is on schedule; after that a search may end with what it has reported. */
  lemma ProgressMeaning(batch: nat, reach: nat, sizes: seq<nat>, start: nat, raised: bool)
    requires Progress(batch, reach, sizes, start, raised)
    ensures !raised ==> OnSchedule(batch, reach, sizes, start)
    ensures ReportResult(batch, reach, sizes, Nothing, true)
    ensures forall later :: ReportResult(batch, reach, sizes, Failed, later)
  {
  }

  /** `on_batch` after the batch of n nonces at `start`, unless the stale flag is seen to be up. */
  method Report(batch: nat, ghost reach: nat, sizes: seq<nat>, ghost start: nat, n: nat, ghost r: Outcome, flags: Flags)
    returns (sizes': seq<nat>)
    requires OnSchedule(batch, reach, sizes, start) && start < reach && n == Min(batch, reach - start)
    requires !r.Failed? && (r.Found? ==> start <= r.nonce < start + n)
    ensures r.Found? ==> ReportResult(batch, reach, sizes', r, flags.raised)
    ensures n == batch ==> Progress(batch, reach, sizes', start + n, flags.raised)
    ensures start + n == reach || flags.raised ==> ReportResult(batch, reach, sizes', Nothing, flags.raised)
  {
    hide Progress, ReportResult, OnSchedule;
    var stale: bool := *;
    sizes' := if stale && flags.raised then sizes else sizes + [n];
    ReportedNext(batch, reach, sizes, start, n);
    RaisedResult(batch, reach, sizes, r);
    RaisedResult(batch, reach, sizes + [n], r);
  }

  lemma ReportedNext(batch: nat, reach: nat, sizes: seq<nat>, start: nat, n: nat)
    requires OnSchedule(batch, reach, sizes, start) && start < reach && n == Min(batch, reach - start)
    ensures Reported(batch, reach, sizes) && Reported(batch, reach, sizes + [n])
    ensures forall x :: start <= x < start + n ==> ReportResult(batch, reach, sizes + [n], Found(x), false)
    ensures n == batch ==> Progress(batch, reach, sizes + [n], start + n, false)
    ensures start + n == reach ==> ReportResult(batch, reach, sizes + [n], Nothing, false)
  {
    TimesBatch(|sizes| + 1, batch);
    OneMoreSize(batch, reach, sizes, n);
    hide Reported;
  }

  lemma OneMoreSize(batch: nat, reach: nat, sizes: seq<nat>, n: nat)
    requires Reported(batch, reach, sizes) && |sizes| * batch < reach && n == Min(batch, reach - |sizes| * batch)
    ensures Reported(batch, reach, sizes + [n])
  {
  }

  /** With a flag up the reports need not be complete. */
  lemma RaisedResult(batch: nat, reach: nat, sizes: seq<nat>, r: Outcome)
    requires Reported(batch, reach, sizes)
    ensures ReportResult(batch, reach, sizes, r, true) && ReportResult(batch, reach, sizes, Nothing, true)
    ensures forall start :: Progress(batch, reach, sizes, start, true)
  {
  }

  // ---------- one batch on a GPU ----------

  /** What the device, whichever it is, says about a buffer that holds exactly the batch. */
  ghost predicate BatchResult(dev: Backend, z: Puzzle, fill: nat -> Bytes, start: nat, n: nat, r: Outcome,
                              raised: bool) {
    var wins := NonceWins(DevicePuzzle(z), fill);
    match r
    case Found(x) => start <= x < start + n && wins(x) && (dev.Cuda? ==> NoneFrom(wins, start, x))
    case Nothing => raised || NoneFrom(wins, start, start + n)
    case Failed => true
  }

  ghost predicate NoneFrom(wins: nat -> bool, lo: nat, hi: nat) {
    forall x :: lo <= x < hi ==> !wins(x)
  }

  /** `mix_filled_pads` of the device at hand. */
  method MixFilledPads(dev: Backend, works: bool, z: Puzzle, ghost fill: nat -> Bytes, host: Bytes, len: nat, n: nat,
                       start: nat, threads: nat, flags: Flags)
    returns (r: Outcome)
    requires Minable(z.p, len) && len >= 64 && threads > 0 && n > 0 && start + n <= MAX_U64
    requires host == Sequential(fill, start, n) && forall x :: |fill(x)| == len
    modifies flags
    ensures flags.Later(old(flags.raised), old(flags.side))
    ensures BatchResult(dev, z, fill, start, n, r, flags.raised)
    ensures r.Failed? ==> !works
  {
    hide SlotWins, NonceWins, DevicePuzzle, FoldedWins, Minable, Sequential, PadCount, NoneBelow, NoneFrom;
    SequentialLength(fill, start, n, len);
    match dev
    case Cuda =>
      r := MixFilledPadsOnCuda(z, works, host, len, n, start, flags);
      if r.Found? {
        SlotIsNonce(DevicePuzzle(z), fill, len, start, n, r.nonce - start);
        NoneBelowSlots(DevicePuzzle(z), fill, len, start, n, r.nonce - start);
      } else if r.Nothing? && !flags.raised {
        NoneBelowSlots(DevicePuzzle(z), fill, len, start, n, n);
      }
    case OpenCl =>
      ExactlyFull(n, len);
      r := MixFilledPadsOnOpenCl(z, works, host, len, n, start, threads, flags);
      FoldedAreSlots(z, host, len, n);
      if r.Found? {
        SlotIsNonce(DevicePuzzle(z), fill, len, start, n, r.nonce - start);
      } else if r.Nothing? && !flags.raised {
        SameBelow(FoldedWins(z, host, len, n), SlotWins(DevicePuzzle(z), host, len), n, n);
        NoneBelowSlots(DevicePuzzle(z), fill, len, start, n, n);
      }
  }

  lemma ExactlyFull(n: nat, len: nat)
    requires len > 0
    ensures PadCount(n * len, len) == n
  {
    DivModUnique(n, 0, len);
  }

  lemma FoldedAreSlots(z: Puzzle, host: Bytes, len: nat, n: nat)
    ensures forall i :: 0 <= i < n ==> (FoldedWins(z, host, len, n)(i) <==> SlotWins(DevicePuzzle(z), host, len)(i))
  {
    hide SlotWins, DevicePuzzle;
  }

  /** In a filled buffer, pad i wins just when nonce start + i does. */
  lemma SlotIsNonce(z: Puzzle, fill: nat -> Bytes, len: nat, start: nat, n: nat, i: nat)
    requires i < n && forall x :: |fill(x)| == len
    ensures SlotWins(z, Sequential(fill, start, n), len)(i) <==> NonceWins(z, fill)(start + i)
  {
    hide PadWins, PadAt, Sequential;
    SequentialPad(fill, start, n, len, i);
  }

  lemma NoneBelowSlots(z: Puzzle, fill: nat -> Bytes, len: nat, start: nat, n: nat, k: nat)
    requires k <= n && forall x :: |fill(x)| == len
    requires NoneBelow(SlotWins(z, Sequential(fill, start, n), len), k)
    ensures NoneFrom(NonceWins(z, fill), start, start + k)
  {
    hide SlotWins, NonceWins, Sequential;
    forall x | start <= x < start + k ensures !NonceWins(z, fill)(x) {
      SlotIsNonce(z, fill, len, start, n, x - start);
    }
  }

  /** The device has one batch while the host's threads fill the next; the flags may go up at any time. */
  method MixWhileFilling(dev: Backend, works: bool, z: Puzzle, fill: nat -> Bytes, len: nat, threads: nat, start: nat,
                         n: nat, host: Bytes, nextN: Option<nat>, flags: Flags)
    returns (found: Outcome, nextHost: Option<Bytes>)
    requires Minable(z.p, len) && len >= 64 && threads > 0 && n > 0 && start + n <= MAX_U64
    requires host == Sequential(fill, start, n) && forall x :: |fill(x)| == len
    requires flags.side == Idle
    modifies flags
    ensures flags.Later(old(flags.raised), old(flags.side))
    ensures BatchResult(dev, z, fill, start, n, found, flags.raised)
    ensures found.Failed? ==> !works
    ensures nextHost.Some? ==>
      nextN.Some? && nextN.value > 0 && nextHost.value == Sequential(fill, start + n, nextN.value)
    ensures nextHost.None? ==> nextN.None? || nextN.value == 0 || flags.raised
  {
    hide Sequential, BatchResult, Minable;
    nextHost := None;
    if nextN.None? || nextN.value == 0 {
      found := MixFilledPads(dev, works, z, fill, host, len, n, start, threads, flags);
      return;
    }
    StartFill(fill, start + n, nextN.value, len, threads, flags);
    found := MixFilledPads(dev, works, z, fill, host, len, n, start, threads, flags);
    ghost var meanwhile := flags.raised;
    nextHost := JoinFill(flags);
    BatchLater(dev, z, fill, start, n, found, meanwhile, flags.raised);
  }

  lemma BatchLater(dev: Backend, z: Puzzle, fill: nat -> Bytes, start: nat, n: nat, r: Outcome, before: bool,
                   raised: bool)
    requires BatchResult(dev, z, fill, start, n, r, before) && (before ==> raised)
    ensures BatchResult(dev, z, fill, start, n, r, raised)
  {
    hide NonceWins, DevicePuzzle;
  }

  // ---------- the pipelined GPU search ----------

  /**
   The GPU loop. It covers exactly the nonces below max mod 2^32, for the winners by the rounds the
   device counts: CUDA returns the least, OpenCL one from the first batch that has any.
   */
  method SearchGpu(dev: Backend, works: bool, z: Puzzle, fill: nat -> Bytes, len: nat, threads: nat, batch0: u32,
                   max: u64, flags: Flags)
    returns (r: Outcome, reported: seq<nat>)
    requires Minable(z.p, len) && threads > 0 && flags.side == Idle && forall x :: |fill(x)| == len
    modifies flags
    ensures flags.Later(old(flags.raised), old(flags.side))
    ensures len < 64 ==> r == Nothing
    ensures len >= 64 ==>
      SearchResult(dev.Cuda?, NonceWins(DevicePuzzle(z), fill), Max(batch0, 1), Truncated(max), r, flags.raised)
    ensures len >= 64 && z.p.mixRounds < WINDOW ==>
      SearchResult(dev.Cuda?, NonceWins(z, fill), Max(batch0, 1), Truncated(max), r, flags.raised)
    ensures len >= 64 ==> ReportResult(Max(batch0, 1), Truncated(max), reported, r, flags.raised)
    ensures r.Failed? ==> !works
  {
    hide Sequential, NoneBelow, BatchAt, Truncated, Aligned, BatchResult, Minable, NonceWins, DevicePuzzle;
    hide Progress, ReportResult, OnSchedule;
    var batch := Max(batch0, 1);
    ghost var reach, wins := Truncated(max), NonceWins(DevicePuzzle(z), fill);
    TruncatedSmall(max);
    if z.p.mixRounds < WINDOW {
      SmallRoundsSamePuzzle(z);
    }
    var start := 0;
    reported := [];
    NothingReported(batch, reach, reported);
    BatchArithmetic(batch, max, 0);
    NoneBelowZero(wins);
    var n := BatchAt(batch, max, 0);
    if n == 0 {
      return Nothing, reported;
    }
    var first := FillPads(fill, start, n, len, threads, flags);
    if first.None? {
      return Nothing, reported;
    }
    var host := first.value;
    ZeroIsMultiple(batch);
    while true
      invariant flags.Later(old(flags.raised), old(flags.side)) && flags.side == Idle
      invariant len >= 64 && start < reach && Aligned(start, batch)
      invariant start <= max && n == BatchAt(batch, max, start) > 0
      invariant host == Sequential(fill, start, n)
      invariant NoneBelow(wins, start) || flags.raised
      invariant Progress(batch, reach, reported, start, flags.raised)
      decreases reach - start
    {
      ProgressMeaning(batch, reach, reported, start, flags.raised);
      var seen := flags.Poll();
      if seen {
        return Nothing, reported;
      }
      BatchArithmetic(batch, max, start);
      var nextStart := start + n;
      BatchArithmetic(batch, max, nextStart);
      var nextN := if nextStart < max then Some(BatchAt(batch, max, nextStart)) else None;
      var found, nextHost := MixWhileFilling(dev, works, z, fill, len, threads, start, n, host, nextN, flags);
      BatchAnswers(dev, z, fill, batch, reach, start, n, found, flags.raised);
      if found.Failed? {
        return Failed, reported;
      }
      reported := Report(batch, reach, reported, start, n, found, flags);
      if found.Found? {
        return found, reported;
      }
      if nextN.None? || nextHost.None? {
        return Nothing, reported;
      }
      AlignedNext(start, batch);
      start := nextStart;
      n, host := nextN.value, nextHost.value;
    }
  }

  lemma TruncatedSmall(x: nat)
    ensures Truncated(x) < WINDOW
  {
  }

  /** A winner of the current batch, all earlier nonces being losers, answers the search; none extends the losers. */
  lemma BatchAnswers(dev: Backend, z: Puzzle, fill: nat -> Bytes, batch: nat, reach: nat, start: nat, n: nat,
                     r: Outcome, raised: bool)
    requires batch > 0 && Aligned(start, batch) && n <= batch && start + n <= reach
    requires NoneBelow(NonceWins(DevicePuzzle(z), fill), start)
    requires BatchResult(dev, z, fill, start, n, r, raised)
    ensures !r.Nothing? ==> SearchResult(dev.Cuda?, NonceWins(DevicePuzzle(z), fill), batch, reach, r, raised)
    ensures r.Nothing? ==> raised || NoneBelow(NonceWins(DevicePuzzle(z), fill), start + n)
    ensures r.Found? ==> start <= r.nonce < start + n
  {
    hide NonceWins, DevicePuzzle, Aligned;
    if r.Found? {
      BatchStart(start, batch, r.nonce);
    }
  }

  /** Every batch but the last is full, so batches start at multiples of its size. */
  predicate Aligned(start: nat, batch: nat)
    requires batch > 0
  {
    start % batch == 0
  }

  lemma AlignedNext(start: nat, batch: nat)
    requires batch > 0 && Aligned(start, batch)
    ensures Aligned(start + batch, batch)
  {
    BatchStart(start, batch, start);
  }

  lemma NoneBelowZero(wins: nat -> bool)
    ensures NoneBelow(wins, 0)
  {
  }

  lemma ZeroIsMultiple(batch: nat)
    requires batch > 0
    ensures Aligned(0, batch)
  {
  }

  lemma BatchStart(start: nat, batch: nat, x: nat)
    requires batch > 0 && Aligned(start, batch) && start <= x < start + batch
    ensures x - x % batch == start
    ensures (start + batch) % batch == 0
  {
    var q := start / batch;
    MultipleOf(start, batch);
    DivModUnique(q, x - start, batch);
    DivModUnique(q + 1, 0, batch);
    assert (q + 1) * batch == q * batch + batch;
  }

  lemma MultipleOf(start: nat, batch: nat)
    requires batch > 0 && start % batch == 0
    ensures (start / batch) * batch == start
  {
  }

  // ---------- the CPU search ----------

  /**
   The CPU loop: a winner from the first batch that has one, or none below max mod 2^32. From 2^32
   nonces on, a loop that has found nothing stalls there: its batch is empty, so until others raise
   a flag it repeats itself. That is where the model lets it end.
   */
  method SearchCpu(z: Puzzle, fill: nat -> Bytes, len: nat, threads: nat, batch0: u32, max: u64, flags: Flags)
    returns (r: Outcome, stalled: bool, reported: seq<nat>)
    requires Minable(z.p, len) && threads > 0 && forall x :: |fill(x)| == len
    modifies flags
    ensures flags.Later(old(flags.raised), old(flags.side))
    ensures SearchResult(false, NonceWins(z, fill), Max(batch0, 1), Truncated(max), r, flags.raised)
    ensures ReportResult(Max(batch0, 1), Truncated(max), reported, r, flags.raised)
    ensures !r.Failed? && (stalled ==> r.Nothing? && max >= WINDOW)
    ensures r.Nothing? && !stalled && !flags.raised ==> max < WINDOW
  {
    hide NoneBelow, Aligned, BatchAt, Minable, NonceWins, Truncated, Progress, ReportResult, OnSchedule;
    var batch := Max(batch0, 1);
    ghost var reach, wins := Truncated(max), NonceWins(z, fill);
    TruncatedSmall(max);
    BatchArithmetic(batch, max, 0);
    NoneBelowZero(wins);
    ZeroIsMultiple(batch);
    var start := 0;
    stalled, reported := false, [];
    NothingReported(batch, reach, reported);
    while start < max
      invariant start <= reach && flags.Later(old(flags.raised), old(flags.side))
      invariant start < reach ==> Aligned(start, batch)
      invariant NoneBelow(wins, start) || flags.raised
      invariant start < reach ==> Progress(batch, reach, reported, start, flags.raised)
      invariant start == reach ==> ReportResult(batch, reach, reported, Nothing, flags.raised)
      decreases max - start
    {
      CpuProgress(batch, reach, reported, start, flags.raised);
      var seen := flags.Poll();
      if seen {
        return Nothing, false, reported;
      }
      BatchArithmetic(batch, max, start);
      var n := BatchAt(batch, max, start);
      if n == 0 {
        StallsOnlyThere(max);
        return Nothing, true, reported;
      }
      var found := SearchBatchOnCpu(z, fill, len, start, n, threads, flags);
      CpuBatchAnswers(wins, batch, reach, start, n, found, flags.raised);
      reported := Report(batch, reach, reported, start, n, if found.Some? then Found(found.value) else Nothing, flags);
      if found.Some? {
        return Found(found.value), false, reported;
      }
      AlignedNext(start, batch);
      start := start + n;
    }
    StallsOnlyThere(max);
    r := Nothing;
  }

  lemma CpuProgress(batch: nat, reach: nat, sizes: seq<nat>, start: nat, raised: bool)
    requires start < reach ==> Progress(batch, reach, sizes, start, raised)
    requires start == reach ==> ReportResult(batch, reach, sizes, Nothing, raised)
    requires start <= reach
    ensures ReportResult(batch, reach, sizes, Nothing, true)
    ensures start < reach && !raised ==> OnSchedule(batch, reach, sizes, start)
  {
  }

  lemma StallsOnlyThere(max: u64)
    ensures Truncated(max) <= max
    ensures max < WINDOW <==> Truncated(max) == max
  {
  }

  lemma CpuBatchAnswers(wins: nat -> bool, batch: nat, reach: nat, start: nat, n: nat, r: Option<u64>, raised: bool)
    requires batch > 0 && Aligned(start, batch) && n <= batch && start + n <= reach
    requires NoneBelow(wins, start)
    requires r.Some? ==> start <= r.value < start + n && wins(r.value)
    requires r.None? && !raised ==> forall x :: start <= x < start + n ==> !wins(x)
    ensures r.Some? ==> SearchResult(false, wins, batch, reach, Found(r.value), raised)
    ensures r.None? ==> raised || NoneBelow(wins, start + n)
  {
    hide Aligned;
    if r.Some? {
      BatchStart(start, batch, r.value);
    }
  }
}
