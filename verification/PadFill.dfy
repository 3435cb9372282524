/**
 The parallel fill (apps/mesh-miner-gpu/src/host_pads.rs): one buffer of n pads cut into
 per-thread slices, every thread filling its pads in place until done or aborted.
 */
module PadFill {
  import opened Machine
  import opened Slices
  import opened Pads

  /** `fill(nonce)` is the pad of a nonce, always `padLen` bytes. */
  datatype Job = Job(fill: nat -> Bytes, start: nat, n: nat, padLen: nat, slices: seq<Slice>) {
    ghost predicate Valid() {
      Covers(slices, 0, n) && forall x :: |fill(x)| == padLen
    }
  }

  datatype Pc = At(j: nat) | Done

  datatype State = State(host: Bytes, aborted: bool, pcs: seq<Pc>)

  datatype Step = Abort | GiveUp(t: nat) | Write(t: nat)

  function Initial(p: Job): State {
    State(seq(p.padLen * p.n, _ => 0), false,
          seq(|p.slices|, t requires 0 <= t < |p.slices| => At(p.slices[t].lo)))
  }

  predicate Enabled(p: Job, s: State, e: Step) {
    match e
    case Abort => true
    case GiveUp(t) => t < |s.pcs| && s.pcs[t].At? && s.aborted
    case Write(t) =>
      && t < |s.pcs| && t < |p.slices| && s.pcs[t].At?
      && s.pcs[t].j * p.padLen + p.padLen <= |s.host|
      && |p.fill(p.start + s.pcs[t].j)| == p.padLen
  }

  function After(p: Job, s: State, e: Step): State
    requires Enabled(p, s, e)
  {
    match e
    case Abort => s.(aborted := true)
    case GiveUp(t) => s.(pcs := s.pcs[t := Done])
    case Write(t) =>
      var j := s.pcs[t].j;
      s.(host := PutPad(s.host, p.padLen, j, p.fill(p.start + j)),
         pcs := s.pcs[t := if j + 1 < p.slices[t].hi then At(j + 1) else Done])
  }

  // ---------- the invariant ----------

  ghost predicate PadFilled(p: Job, host: Bytes, i: nat) {
    i * p.padLen + p.padLen <= |host| && PadAt(host, p.padLen, i) == p.fill(p.start + i)
  }

  ghost predicate ThreadOk(p: Job, s: State, t: nat)
    requires t < |s.pcs| == |p.slices|
  {
    var sl := p.slices[t];
    match s.pcs[t]
    case At(j) => sl.lo <= j < sl.hi && forall i :: sl.lo <= i < j ==> PadFilled(p, s.host, i)
    case Done => s.aborted || forall i :: sl.lo <= i < sl.hi ==> PadFilled(p, s.host, i)
  }

  ghost predicate Inv(p: Job, s: State) {
    && |s.pcs| == |p.slices| && |s.host| == p.padLen * p.n
    && forall t :: 0 <= t < |s.pcs| ==> ThreadOk(p, s, t)
  }

  lemma InitialInv(p: Job)
    requires p.Valid()
    ensures Inv(p, Initial(p))
  {
    forall t | 0 <= t < |p.slices| ensures ThreadOk(p, Initial(p), t) {
      SliceBounds(p.slices, 0, p.n, t);
    }
  }

  /** A thread still at work can always write: its pad lies inside the buffer. */
  lemma CanWrite(p: Job, s: State, t: nat)
    requires p.Valid() && Inv(p, s) && t < |s.pcs| && s.pcs[t].At?
    ensures Enabled(p, s, Write(t))
  {
    assert ThreadOk(p, s, t);
    SliceBounds(p.slices, 0, p.n, t);
    PadFits(s.pcs[t].j, p.n, p.padLen);
    assert p.n * p.padLen == p.padLen * p.n;
  }

  lemma FilledSurvives(p: Job, host: Bytes, j: nat, i: nat)
    requires j * p.padLen + p.padLen <= |host| && |p.fill(p.start + j)| == p.padLen
    requires i == j || PadFilled(p, host, i)
    ensures PadFilled(p, PutPad(host, p.padLen, j, p.fill(p.start + j)), i)
  {
    PutThenAt(host, p.padLen, j, p.fill(p.start + j), i);
  }

  lemma StepInv(p: Job, s: State, e: Step)
    requires p.Valid() && Inv(p, s) && Enabled(p, s, e)
    ensures Inv(p, After(p, s, e))
  {
    hide PadFilled, PutPad;
    var s' := After(p, s, e);
    forall u | 0 <= u < |s'.pcs| ensures ThreadOk(p, s', u) {
      assert ThreadOk(p, s, u);
      if e.Write? {
        var j := s.pcs[e.t].j;
        forall i | PadFilled(p, s.host, i) || i == j ensures PadFilled(p, s'.host, i) {
          FilledSurvives(p, s.host, j, i);
        }
      }
    }
  }

  ghost predicate Joined(s: State) { forall t :: 0 <= t < |s.pcs| ==> s.pcs[t].Done? }

  lemma {:induction false} FilledIsSequential(p: Job, host: Bytes, n: nat)
    requires n * p.padLen <= |host| && forall x :: |p.fill(x)| == p.padLen
    requires forall i :: 0 <= i < n ==> PadFilled(p, host, i)
    ensures host[..n * p.padLen] == Sequential(p.fill, p.start, n)
  {
    if n > 0 {
      PadFits(n - 1, n, p.padLen);
      assert (n - 1) * p.padLen + p.padLen == n * p.padLen;
      FilledIsSequential(p, host, n - 1);
      assert PadFilled(p, host, n - 1);
      assert host[..n * p.padLen] == host[..(n - 1) * p.padLen] + PadAt(host, p.padLen, n - 1);
    }
  }

  /** All threads joined and nobody aborted: every pad is filled, as if by one thread. */
  lemma JoinedIsSequential(p: Job, s: State)
    requires p.Valid() && Inv(p, s) && Joined(s) && !s.aborted
    ensures s.host == Sequential(p.fill, p.start, p.n)
  {
    hide PadFilled;
    forall i | 0 <= i < p.n ensures PadFilled(p, s.host, i) {
      var t := SliceOf(p.slices, 0, p.n, i);
      assert ThreadOk(p, s, t);
    }
    assert p.n * p.padLen == p.padLen * p.n;
    FilledIsSequential(p, s.host, p.n);
    assert s.host[..p.n * p.padLen] == s.host;
  }

  ghost predicate Run(p: Job, run: seq<State>, steps: seq<Step>) {
    && |run| == |steps| + 1
    && run[0] == Initial(p)
    && forall i :: 0 <= i < |steps| ==> Enabled(p, run[i], steps[i]) && run[i + 1] == After(p, run[i], steps[i])
  }

  lemma {:induction false} RunInv(p: Job, run: seq<State>, steps: seq<Step>, i: nat)
    requires p.Valid() && Run(p, run, steps) && i < |run|
    ensures Inv(p, run[i])
  {
    hide Inv, After, Enabled;
    if i == 0 {
      InitialInv(p);
    } else {
      RunInv(p, run, steps, i - 1);
      StepInv(p, run[i - 1], steps[i - 1]);
    }
  }

  /** Under every schedule and every timing of an abort, an unaborted fill is the sequential fill. */
  lemma FillIsSequential(p: Job, run: seq<State>, steps: seq<Step>)
    requires p.Valid() && Run(p, run, steps) && Joined(run[|steps|]) && !run[|steps|].aborted
    ensures run[|steps|].host == Sequential(p.fill, p.start, p.n)
  {
    RunInv(p, run, steps, |steps|);
    JoinedIsSequential(p, run[|steps|]);
  }

  // ---------- turns ----------

  /** Pads still to be visited by threads t, t + 1, ... */
  function Work(pcs: seq<Pc>, slices: seq<Slice>): nat
    requires |pcs| == |slices|
  {
    if pcs == [] then 0
    else
      (match pcs[0] case At(j) => 1 + Max(slices[0].hi - j, 0) case Done => 0) + Work(pcs[1..], slices[1..])
  }

  lemma {:induction false} WorkFalls(pcs: seq<Pc>, slices: seq<Slice>, t: nat, pc: Pc)
    requires |pcs| == |slices| && t < |pcs| && pcs[t].At?
    requires pc.Done? || (pc.j == pcs[t].j + 1 < slices[t].hi)
    ensures Work(pcs[t := pc], slices) < Work(pcs, slices)
  {
    if t == 0 {
      assert pcs[0 := pc][1..] == pcs[1..];
    } else {
      WorkFalls(pcs[1..], slices[1..], t - 1, pc);
      assert pcs[t := pc][1..] == pcs[1..][t - 1 := pc];
    }
  }

  /** Any thread that has not finished, or the number of threads. */
  method FindRunning(pcs: seq<Pc>) returns (t: nat)
    ensures t <= |pcs|
    ensures t < |pcs| ==> pcs[t].At?
    ensures t == |pcs| ==> forall u :: 0 <= u < |pcs| ==> pcs[u].Done?
  {
    var first :| 0 <= first <= |pcs|;
    if first < |pcs| && pcs[first].At? {
      return first;
    }
    t := 0;
    while t < |pcs| && pcs[t].Done?
      invariant t <= |pcs|
      invariant forall u :: 0 <= u < t ==> pcs[u].Done?
    {
      t := t + 1;
    }
  }

  /** One turn of thread t: it sees the flags and stops, or fills its next pad. */
  method Advance(p: Job, s: State, t: nat, seen: bool) returns (s': State)
    requires p.Valid() && Inv(p, s) && t < |s.pcs| && s.pcs[t].At?
    ensures Inv(p, s') && |s'.pcs| == |p.slices| == |s.pcs|
    ensures s'.aborted == (s.aborted || seen)
    ensures Work(s'.pcs, p.slices) < Work(s.pcs, p.slices)
  {
    s' := s;
    if seen {
      StepInv(p, s, Abort);
      s' := After(p, s, Abort);
      StepInv(p, s', GiveUp(t));
      s' := After(p, s', GiveUp(t));
      WorkFalls(s.pcs, p.slices, t, Done);
    } else {
      CanWrite(p, s, t);
      StepInv(p, s, Write(t));
      s' := After(p, s, Write(t));
      assert ThreadOk(p, s, t);
      WorkFalls(s.pcs, p.slices, t, s'.pcs[t]);
    }
  }
}
