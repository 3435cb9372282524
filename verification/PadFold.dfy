/**
 The parallel fold (apps/mesh-miner-gpu/src/host_pads.rs, and the same loop in the CPU arm of
 engine.rs): one thread per slice, a shared atomic minimum, early exit once anything is found.

 Atomics are relaxed, so a thread may test one more pad although something has been found; it
 gives up only when what it read - an abort flag or a found nonce - was really there.
 */
module PadFold {
  import opened Machine
  import opened Slices

  /** The atomic's initial value, which doubles as "nothing found". */
  const UNFOUND: u64 := MAX_U64

  datatype Pc = At(j: nat) | Publishing(j: nat) | Done

  /** One fold: which pads win, which nonce pad 0 has, how the pads are cut. */
  datatype Task = Task(wins: nat -> bool, start: nat, n: nat, slices: seq<Slice>) {
    ghost predicate Valid() {
      Covers(slices, 0, n) && start + n <= MAX_U64 + 1
    }

    /** The index of a pad whose nonce the result can express. */
    predicate Hit(i: nat) { i < n && wins(i) && start + i != UNFOUND }
  }

  datatype State = State(found: u64, aborted: bool, pcs: seq<Pc>)

  datatype Step = Raise | GiveUp(t: nat) | Test(t: nat, won: bool) | Publish(t: nat)

  function Initial(k: Task): State {
    State(UNFOUND, false, seq(|k.slices|, t requires 0 <= t < |k.slices| => At(k.slices[t].lo)))
  }

  predicate Enabled(k: Task, s: State, e: Step) {
    match e
    case Raise => true
    case GiveUp(t) => t < |s.pcs| && s.pcs[t].At? && (s.aborted || s.found != UNFOUND)
    case Test(t, won) => t < |s.pcs| && t < |k.slices| && s.pcs[t].At? && won == k.wins(s.pcs[t].j)
    case Publish(t) => t < |s.pcs| && s.pcs[t].Publishing? && k.start + s.pcs[t].j <= MAX_U64
  }

  /** `fetch_update`: take the smaller nonce. */
  function Merge(cur: u64, nonce: u64): u64 {
    if cur == UNFOUND || nonce < cur then nonce else cur
  }

  function After(k: Task, s: State, e: Step): State
    requires Enabled(k, s, e)
  {
    match e
    case Raise => s.(aborted := true)
    case GiveUp(t) => s.(pcs := s.pcs[t := Done])
    case Test(t, won) =>
      var j := s.pcs[t].j;
      s.(pcs := s.pcs[t := if won then Publishing(j) else if j + 1 < k.slices[t].hi then At(j + 1) else Done])
    case Publish(t) =>
      s.(found := Merge(s.found, k.start + s.pcs[t].j), pcs := s.pcs[t := Done])
  }

  // ---------- the invariant ----------

  ghost predicate NoWin(k: Task, lo: nat, hi: nat) {
    forall i :: lo <= i < hi ==> !k.Hit(i)
  }

  /** What has been found is the first hit of some slice. */
  ghost predicate FoundOk(k: Task, found: u64) {
    found == UNFOUND || (found >= k.start && FirstOfSome(k, found - k.start))
  }

  ghost predicate FirstOfSome(k: Task, i: nat) { exists t :: FirstOfSlice(k, t, i) }

  ghost predicate FirstOfSlice(k: Task, t: nat, i: nat) {
    t < |k.slices| && k.slices[t].lo <= i < k.slices[t].hi && k.Hit(i) && NoWin(k, k.slices[t].lo, i)
  }

  ghost predicate ThreadOk(k: Task, s: State, t: nat)
    requires t < |s.pcs| == |k.slices|
  {
    var sl := k.slices[t];
    match s.pcs[t]
    case At(j) => sl.lo <= j < sl.hi && NoWin(k, sl.lo, j)
    case Publishing(j) => sl.lo <= j < sl.hi && k.wins(j) && NoWin(k, sl.lo, j)
    case Done => s.aborted || s.found != UNFOUND || NoWin(k, sl.lo, sl.hi)
  }

  ghost predicate Inv(k: Task, s: State) {
    && |s.pcs| == |k.slices|
    && FoundOk(k, s.found)
    && forall t :: 0 <= t < |s.pcs| ==> ThreadOk(k, s, t)
  }

  lemma InitialInv(k: Task)
    requires k.Valid()
    ensures Inv(k, Initial(k))
  {
    forall t | 0 <= t < |k.slices| ensures ThreadOk(k, Initial(k), t) {
      SliceBounds(k.slices, 0, k.n, t);
    }
  }

  lemma StepInv(k: Task, s: State, e: Step)
    requires k.Valid() && Inv(k, s) && Enabled(k, s, e)
    ensures Inv(k, After(k, s, e))
    ensures After(k, s, e).found <= s.found
  {
    var s' := After(k, s, e);
    if e.Publish? {
      var t, j := e.t, s.pcs[e.t].j;
      assert ThreadOk(k, s, t);
      SliceBounds(k.slices, 0, k.n, t);
      if k.start + j != UNFOUND {
        assert FirstOfSlice(k, t, j);
      }
    }
    forall u | 0 <= u < |s'.pcs| ensures ThreadOk(k, s', u) {
      assert ThreadOk(k, s, u);
    }
  }

  // ---------- runs ----------

  ghost predicate Run(k: Task, run: seq<State>, steps: seq<Step>) {
    && |run| == |steps| + 1
    && run[0] == Initial(k)
    && forall i :: 0 <= i < |steps| ==> Enabled(k, run[i], steps[i]) && run[i + 1] == After(k, run[i], steps[i])
  }

  ghost predicate Joined(s: State) { forall t :: 0 <= t < |s.pcs| ==> s.pcs[t].Done? }

  lemma {:induction false} RunInv(k: Task, run: seq<State>, steps: seq<Step>, i: nat)
    requires k.Valid() && Run(k, run, steps) && i < |run|
    ensures Inv(k, run[i])
  {
    hide Inv, After, Enabled;
    if i == 0 {
      InitialInv(k);
    } else {
      RunInv(k, run, steps, i - 1);
      StepInv(k, run[i - 1], steps[i - 1]);
    }
  }

  /**
   Whatever the schedule: a found nonce belongs to the batch, wins, and is the first hit of its
   slice; and if nothing was found and nobody aborted, no pad with an expressible nonce wins.
   */
  lemma FoldSoundAndComplete(k: Task, run: seq<State>, steps: seq<Step>)
    requires k.Valid() && Run(k, run, steps) && Joined(run[|steps|])
    ensures var s := run[|steps|];
      && (s.found != UNFOUND ==>
            s.found >= k.start && k.Hit(s.found - k.start) && FirstOfSome(k, s.found - k.start))
      && (s.found == UNFOUND && !s.aborted ==> NoWin(k, 0, k.n))
  {
    var s := run[|steps|];
    RunInv(k, run, steps, |steps|);
    JoinedResult(k, s);
  }

  /** A found nonce is the least of those published: some thread published it, and none a smaller one. */
  lemma FoundIsLeastPublished(k: Task, run: seq<State>, steps: seq<Step>)
    requires k.Valid() && Run(k, run, steps)
    ensures forall i, x :: Published(k, run, steps, i, x) ==> run[|steps|].found <= x
    ensures run[|steps|].found != UNFOUND ==> exists i :: Published(k, run, steps, i, run[|steps|].found)
  {
    forall i, x | Published(k, run, steps, i, x) ensures run[|steps|].found <= x {
      PublishedBounds(k, run, steps, i, x, |steps|);
    }
    if run[|steps|].found != UNFOUND {
      var i := WasPublished(k, run, steps, |steps|);
    }
  }

  /** Step i of the run hands nonce x to the shared minimum. */
  ghost predicate Published(k: Task, run: seq<State>, steps: seq<Step>, i: nat, x: nat)
    requires Run(k, run, steps)
  {
    i < |steps| && steps[i].Publish? && x == k.start + run[i].pcs[steps[i].t].j
  }

  lemma {:induction false} PublishedBounds(k: Task, run: seq<State>, steps: seq<Step>, i: nat, x: nat, n: nat)
    requires k.Valid() && Run(k, run, steps) && Published(k, run, steps, i, x) && i < n <= |steps|
    ensures run[n].found <= x
  {
    assert Enabled(k, run[n - 1], steps[n - 1]) && run[n] == After(k, run[n - 1], steps[n - 1]);
    if i < n - 1 {
      PublishedBounds(k, run, steps, i, x, n - 1);
    }
  }

  lemma {:induction false} WasPublished(k: Task, run: seq<State>, steps: seq<Step>, n: nat) returns (i: nat)
    requires k.Valid() && Run(k, run, steps) && n <= |steps| && run[n].found != UNFOUND
    ensures i < n && Published(k, run, steps, i, run[n].found)
  {
    assert n > 0;
    assert Enabled(k, run[n - 1], steps[n - 1]) && run[n] == After(k, run[n - 1], steps[n - 1]);
    if run[n].found == run[n - 1].found {
      i := WasPublished(k, run, steps, n - 1);
    } else {
      i := n - 1;
    }
  }

  lemma JoinedResult(k: Task, s: State)
    requires k.Valid() && Inv(k, s) && Joined(s)
    ensures s.found == UNFOUND && !s.aborted ==> NoWin(k, 0, k.n)
  {
    if s.found == UNFOUND && !s.aborted {
      forall i | 0 <= i < k.n ensures !k.Hit(i) {
        var t := SliceOf(k.slices, 0, k.n, i);
        assert ThreadOk(k, s, t);
      }
    }
  }

  // ---------- when the result is the least nonce ----------

  ghost predicate Least(k: Task, found: u64) {
    if found == UNFOUND then NoWin(k, 0, k.n)
    else found >= k.start && k.Hit(found - k.start) && NoWin(k, 0, found - k.start)
  }

  /** No schedule without an abort returns anything but the least winning nonce. */
  ghost predicate AlwaysLeast(k: Task) {
    forall run: seq<State>, steps: seq<Step> :: Run(k, run, steps) && Joined(run[|steps|]) && !run[|steps|].aborted
      ==> Least(k, run[|steps|].found)
  }

  ghost predicate HitIn(k: Task, t: nat, i: nat) {
    t < |k.slices| && k.slices[t].lo <= i < k.slices[t].hi && k.Hit(i)
  }

  /** All winning pads are in the same slice. */
  ghost predicate OneSliceWins(k: Task) {
    forall t, u, i, j :: HitIn(k, t, i) && HitIn(k, u, j) ==> t == u
  }

  lemma ExtendRun(k: Task, run: seq<State>, steps: seq<Step>, e: Step) returns (run': seq<State>, steps': seq<Step>)
    requires Run(k, run, steps) && Enabled(k, run[|steps|], e)
    ensures Run(k, run', steps') && |steps'| == |steps| + 1
    ensures run'[|steps'|] == After(k, run[|steps|], e)
  {
    hide Enabled, After;
    steps' := steps + [e];
    run' := run + [After(k, run[|steps|], e)];
  }

  /** Thread u alone walks up to pad j while no pad before it wins. */
  lemma {:induction false} WalkTo(k: Task, u: nat, j: nat) returns (run: seq<State>, steps: seq<Step>)
    requires k.Valid() && u < |k.slices| && k.slices[u].lo <= j < k.slices[u].hi
    requires NoWin(k, k.slices[u].lo, j)
    ensures Run(k, run, steps)
    ensures run[|steps|] == Initial(k).(pcs := Initial(k).pcs[u := At(j)])
    decreases j
  {
    SliceBounds(k.slices, 0, k.n, u);
    if j == k.slices[u].lo {
      run, steps := [Initial(k)], [];
      assert Initial(k).pcs[u := At(j)] == Initial(k).pcs;
    } else {
      run, steps := WalkTo(k, u, j - 1);
      assert !k.Hit(j - 1);
      run, steps := ExtendRun(k, run, steps, Test(u, k.wins(j - 1)));
    }
  }

  /** Once something is found, all threads from the first m on give up in turn. */
  lemma {:induction false} GiveUpAll(k: Task, run: seq<State>, steps: seq<Step>, m: nat)
    returns (run': seq<State>, steps': seq<Step>)
    requires Run(k, run, steps) && m <= |run[|steps|].pcs|
    requires run[|steps|].found != UNFOUND
    requires forall t :: 0 <= t < m ==> run[|steps|].pcs[t].Done?
    requires forall t :: m <= t < |run[|steps|].pcs| ==> run[|steps|].pcs[t].At? || run[|steps|].pcs[t].Done?
    ensures Run(k, run', steps') && Joined(run'[|steps'|])
    ensures run'[|steps'|].found == run[|steps|].found && run'[|steps'|].aborted == run[|steps|].aborted
    decreases |run[|steps|].pcs| - m
  {
    run', steps' := run, steps;
    if m < |run[|steps|].pcs| {
      if run[|steps|].pcs[m].At? {
        run', steps' := ExtendRun(k, run, steps, GiveUp(m));
      }
      run', steps' := GiveUpAll(k, run', steps', m + 1);
    }
  }

  lemma {:induction false} FirstHit(k: Task, lo: nat, i: nat) returns (j: nat)
    requires lo <= i && k.Hit(i)
    ensures lo <= j <= i && k.Hit(j) && NoWin(k, lo, j)
    decreases i - lo
  {
    if k.Hit(lo) {
      j := lo;
    } else {
      j := FirstHit(k, lo + 1, i);
    }
  }

  /** A schedule that returns the first hit of slice u, whatever the other slices hold. */
  lemma FavouringRun(k: Task, u: nat, i: nat) returns (run: seq<State>, steps: seq<Step>)
    requires k.Valid() && HitIn(k, u, i)
    ensures Run(k, run, steps) && Joined(run[|steps|]) && !run[|steps|].aborted
    ensures run[|steps|].found != UNFOUND && run[|steps|].found >= k.start + k.slices[u].lo
  {
    var j := FirstHit(k, k.slices[u].lo, i);
    run, steps := WalkTo(k, u, j);
    run, steps := ExtendRun(k, run, steps, Test(u, true));
    run, steps := ExtendRun(k, run, steps, Publish(u));
    run, steps := GiveUpAll(k, run, steps, 0);
  }

  /**
   The early exit costs leastness exactly when winners are spread over several slices: then some
   schedule returns a nonce that is not the least, and otherwise none does.
   */
  lemma LeastIff(k: Task)
    requires k.Valid()
    ensures AlwaysLeast(k) <==> OneSliceWins(k)
  {
    if OneSliceWins(k) {
      forall run: seq<State>, steps: seq<Step> | Run(k, run, steps) && Joined(run[|steps|]) && !run[|steps|].aborted
        ensures Least(k, run[|steps|].found)
      {
        OneSliceLeast(k, run, steps);
      }
    } else {
      var t, u, i, j :| HitIn(k, t, i) && HitIn(k, u, j) && t != u;
      if t < u {
        NotLeast(k, t, i, u, j);
      } else {
        NotLeast(k, u, j, t, i);
      }
    }
  }

  lemma OneSliceLeast(k: Task, run: seq<State>, steps: seq<Step>)
    requires k.Valid() && OneSliceWins(k)
    requires Run(k, run, steps) && Joined(run[|steps|]) && !run[|steps|].aborted
    ensures Least(k, run[|steps|].found)
  {
    FoldSoundAndComplete(k, run, steps);
    var found := run[|steps|].found;
    if found != UNFOUND {
      var b := found - k.start;
      var t :| FirstOfSlice(k, t, b);
      assert HitIn(k, t, b);
      forall i | 0 <= i < b ensures !k.Hit(i) {
        var u := SliceOf(k.slices, 0, k.n, i);
        assert k.Hit(i) ==> HitIn(k, u, i);
      }
    }
  }

  lemma NotLeast(k: Task, t: nat, i: nat, u: nat, j: nat)
    requires k.Valid() && HitIn(k, t, i) && HitIn(k, u, j) && t < u
    ensures !AlwaysLeast(k)
  {
    SlicesDisjoint(k.slices, 0, k.n, t, u);
    var run, steps := FavouringRun(k, u, j);
    assert run[|steps|].found - k.start > i;
  }

  /**
   What a caller can arrange: with a single slice the result is least for every set of winners, with
   two it is not.
   */
  lemma SingleSliceIff(start: nat, n: nat, slices: seq<Slice>)
    requires Covers(slices, 0, n) && start + n < MAX_U64
    ensures (forall wins :: AlwaysLeast(Task(wins, start, n, slices))) <==> |slices| <= 1
  {
    if |slices| <= 1 {
      forall wins ensures AlwaysLeast(Task(wins, start, n, slices)) {
        LeastIff(Task(wins, start, n, slices));
      }
    } else {
      var k := Task(_ => true, start, n, slices);
      SliceBounds(slices, 0, n, 0);
      SliceBounds(slices, 0, n, 1);
      assert HitIn(k, 0, slices[0].lo) && HitIn(k, 1, slices[1].lo);
      LeastIff(k);
      assert !AlwaysLeast(k);
    }
  }

  // ---------- the call ----------

  /** Turns left to the threads t, t + 1, ... */
  function Work(pcs: seq<Pc>, slices: seq<Slice>): nat
    requires |pcs| == |slices|
  {
    if pcs == [] then 0
    else
      (match pcs[0] case At(j) => 2 + Max(slices[0].hi - j, 0) case Publishing(_) => 1 case Done => 0)
      + Work(pcs[1..], slices[1..])
  }

  lemma {:induction false} WorkFalls(pcs: seq<Pc>, slices: seq<Slice>, t: nat, pc: Pc)
    requires |pcs| == |slices| && t < |pcs| && !pcs[t].Done?
    requires pc.Done? || (pcs[t].At? && (pc.Publishing? || (pc.At? && pc.j == pcs[t].j + 1 < slices[t].hi)))
    ensures Work(pcs[t := pc], slices) < Work(pcs, slices)
  {
    if t == 0 {
      assert pcs[0 := pc][1..] == pcs[1..];
    } else {
      WorkFalls(pcs[1..], slices[1..], t - 1, pc);
      assert pcs[t := pc][1..] == pcs[1..][t - 1 := pc];
    }
  }

  method FindRunning(pcs: seq<Pc>) returns (t: nat)
    ensures t <= |pcs|
    ensures t < |pcs| ==> !pcs[t].Done?
    ensures t == |pcs| ==> forall u :: 0 <= u < |pcs| ==> pcs[u].Done?
  {
    var first :| 0 <= first <= |pcs|;
    if first < |pcs| && !pcs[first].Done? {
      return first;
    }
    t := 0;
    while t < |pcs| && pcs[t].Done?
      invariant t <= |pcs|
      invariant forall u :: 0 <= u < t ==> pcs[u].Done?
    {
      t := t + 1;
    }
  }

  /**
   What thread t does next, having seen the flags or not: publish, give up, or test its pad; `late`
   is a relaxed read that missed what has been found.
   */
  datatype Turn = Publishes | GivesUp | Tests

  function NextTurn(s: State, t: nat, seen: bool, late: bool): Turn
    requires t < |s.pcs|
  {
    if s.pcs[t].Publishing? then Publishes
    else if seen || (s.found != UNFOUND && !late) then GivesUp
    else Tests
  }

  /** One turn of thread t; if it tests its pad, `won` is what came out. */
  method Advance(k: Task, s: State, t: nat, seen: bool, late: bool, won: bool) returns (s': State)
    requires k.Valid() && Inv(k, s) && t < |s.pcs| && !s.pcs[t].Done?
    requires NextTurn(s, t, seen, late).Tests? ==> won == k.wins(s.pcs[t].j)
    ensures Inv(k, s') && |s'.pcs| == |k.slices| == |s.pcs|
    ensures s'.aborted == (s.aborted || seen)
    ensures Work(s'.pcs, k.slices) < Work(s.pcs, k.slices)
  {
    s' := s;
    if seen {
      StepInv(k, s, Raise);
      s' := After(k, s, Raise);
    }
    var e := match NextTurn(s, t, seen, late)
      case Publishes => Publish(t)
      case GivesUp => GiveUp(t)
      case Tests => Test(t, won);
    assert ThreadOk(k, s', t);
    SliceBounds(k.slices, 0, k.n, t);
    StepInv(k, s', e);
    s' := After(k, s', e);
    WorkFalls(s.pcs, k.slices, t, s'.pcs[t]);
  }

  /** A thread still at work stands inside the batch. */
  lemma AtInside(k: Task, s: State, t: nat)
    requires k.Valid() && Inv(k, s) && t < |s.pcs| && s.pcs[t].At?
    ensures s.pcs[t].j < k.n
  {
    assert ThreadOk(k, s, t);
    SliceBounds(k.slices, 0, k.n, t);
  }

  /** The fold of one buffer: what a caller may rely on whatever the schedule. */
  ghost predicate FoldResult(k: Task, r: Option<u64>, raised: bool) {
    && (r.Some? ==>
      r.value != UNFOUND && r.value >= k.start && k.Hit(r.value - k.start) && FirstOfSome(k, r.value - k.start))
    && (r.None? && !raised ==> NoWin(k, 0, k.n))
  }

  /** All threads joined: the shared value is the call's result. */
  lemma JoinedFold(k: Task, s: State, raised: bool)
    requires k.Valid() && Inv(k, s) && Joined(s) && (s.aborted ==> raised)
    ensures FoldResult(k, if s.found == UNFOUND then None else Some(s.found), raised)
  {
    hide FirstOfSome, NoWin;
    JoinedResult(k, s);
    if s.found != UNFOUND {
      FoundIsHit(k, s);
    }
  }

  lemma FoundIsHit(k: Task, s: State)
    requires Inv(k, s) && s.found != UNFOUND
    ensures s.found >= k.start && k.Hit(s.found - k.start) && FirstOfSome(k, s.found - k.start)
  {
  }
}
