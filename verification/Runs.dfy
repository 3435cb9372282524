/**
 Every interleaving of snapshots, off-lock checks, commits, interrupted saves and restarts.
 */
module Runs {
  import opened Machine
  import opened Protocol

  /** A verifier thread: idle, holding a snapshot to check, or holding a verified advance. */
  datatype Worker<+K, +M> =
    | Idle
    | Checking(key: K, epoch: u64, weights: Bytes, job: Bytes, output: Bytes)
    | Ready(key: K, adv: Advance<M>, job: Bytes)

  /**
   `live` is guarded by the lock; `disk` is the state file. `log` and `saved` are history
   variables: the jobs behind each live brain, and behind the family `disk` was written from.
   */
  datatype Sys<K(==), M> = Sys(live: map<K, Core<M>>, disk: Option<Bytes>, workers: map<nat, Worker<K, M>>,
                               log: map<K, Log>, saved: map<K, Log>)

  datatype Event<+K> =
    | Snapshot(w: nat, key: K, job: Bytes, output: Bytes)
    | Check(w: nat)
    | Commit(w: nat, height: u64, disk: Option<Bytes>)
    | Restart(disk: Option<Bytes>)

  function Genesis<K(!new), M(!new)>(c: Contract<K, M>): map<K, Core<M>> {
    map k | k in c.keys :: c.genesis(k)
  }

  function NoJobs<K(!new), M(!new)>(c: Contract<K, M>): map<K, Log> {
    map k | k in c.keys :: []
  }

  function ReplayAll<K(!new), M(!new)>(c: Contract<K, M>, logs: map<K, Log>): map<K, Core<M>> {
    map k | k in logs :: Replay(c, k, logs[k])
  }

  /** The file after an attempt to write `bytes`: untouched, or truncated and refilled up to some byte. */
  ghost predicate WriteOutcome(before: Option<Bytes>, bytes: Bytes, after: Option<Bytes>) {
    after == before || (after.Some? && after.value <= bytes)
  }

  ghost predicate Init<K(!new), M(!new)>(c: Contract<K, M>, s: Sys<K, M>) {
    && s.live == Genesis(c) && s.workers == map[]
    && s.log == NoJobs(c) && s.saved == NoJobs(c)
    && WriteOutcome(None, c.encode(Genesis(c)), s.disk)
  }

  ghost predicate Next<K(!new), M(!new)>(c: Contract<K, M>, s: Sys<K, M>, e: Event<K>, s': Sys<K, M>) {
    match e
    case Snapshot(w, k, job, output) =>
      // prepare_complete: clone one brain's weights and epoch under the lock, for any job and output
      && k in s.live
      && s' == s.(workers := s.workers[w := Checking(k, s.live[k].epoch, s.live[k].weights, job, output)])
    case Check(w) =>
      // run_cpu: outside the lock, on the snapshot only
      && w in s.workers && s.workers[w].Checking?
      && var p := s.workers[w];
         s' == s.(workers := s.workers[w :=
           match Verify(c, p.key, p.epoch, p.weights, p.job, p.output)
           case Accepted(adv) => Ready(p.key, adv, p.job)
           case Refused(_) => Idle])
    case Commit(w, height, disk) =>
      // finish_complete: apply_advance under the lock, then save, whose failure is ignored
      && w in s.workers && s.workers[w].Ready? && s.workers[w].key in s.live && s.workers[w].key in s.log
      && var p := s.workers[w];
         var idle := s.workers[w := Idle];
         (match Apply(c, s.live[p.key], p.adv, height)
          case Refused(_) => s' == s.(workers := idle)
          case Accepted(b) =>
            && s'.live == s.live[p.key := b]
            && s'.log == s.log[p.key := s.log[p.key] + [Entry(p.job, height)]]
            && s'.workers == idle
            && Saved(c, s, s'.live, s'.log, s', disk))
    case Restart(disk) =>
      // the process dies; load_or_genesis on whatever the file holds
      && s'.workers == map[]
      && (if s.disk.Some? && c.decode(s.disk.value).Some? then
            s'.live == c.decode(s.disk.value).value && s'.log == s.saved && s'.disk == s.disk && s'.saved == s.saved
          else
            && s'.live == Genesis(c) && s'.log == NoJobs(c)
            && Saved(c, s, s'.live, s'.log, s', disk))
  }

  /** One save of a family: the new file, and which history it belongs to. */
  ghost predicate Saved<K(!new), M(!new)>(c: Contract<K, M>, s: Sys<K, M>, live: map<K, Core<M>>, log: map<K, Log>,
                                          s': Sys<K, M>, disk: Option<Bytes>)
  {
    && s'.disk == disk
    && ((disk == s.disk && s'.saved == s.saved)
        || (disk.Some? && disk.value <= c.encode(live) && s'.saved == log))
  }

  // ---------- the invariant ----------

  ghost predicate LogsOk<K(!new), M(!new)>(c: Contract<K, M>, logs: map<K, Log>) {
    logs.Keys == c.keys && forall k :: k in logs ==> Lineage(c, k, logs[k])
  }

  ghost predicate Extends<K>(a: map<K, Log>, b: map<K, Log>) {
    a.Keys == b.Keys && forall k :: k in a ==> a[k] <= b[k]
  }

  ghost predicate WorkerOk<K(!new), M(!new)>(c: Contract<K, M>, logs: map<K, Log>, p: Worker<K, M>) {
    match p
    case Idle => true
    case Checking(k, epoch, weights, job, _) =>
      && k in logs && epoch <= |logs[k]|
      && weights == Replay(c, k, logs[k][..epoch]).weights
    case Ready(k, adv, job) =>
      && k in logs && adv.jobEpoch <= |logs[k]|
      && c.parse(job) == Some(JobSpec(k, adv.jobEpoch, adv.steps))
      && c.train(Replay(c, k, logs[k][..adv.jobEpoch]).weights, job) == Some(adv.trained)
  }

  /** If the file loads at all, it holds an earlier point of this very lineage, whole. */
  ghost predicate DiskOk<K(!new), M(!new)>(c: Contract<K, M>, s: Sys<K, M>) {
    s.disk.Some? && c.decode(s.disk.value).Some? ==>
      && LogsOk(c, s.saved)
      && Extends(s.saved, s.log)
      && c.decode(s.disk.value) == Some(ReplayAll(c, s.saved))
  }

  ghost predicate Inv<K(!new), M(!new)>(c: Contract<K, M>, s: Sys<K, M>, bound: nat) {
    && LogsOk(c, s.log)
    && (forall k :: k in s.log ==> |s.log[k]| <= bound)
    && s.live == ReplayAll(c, s.log)
    && (forall w :: w in s.workers ==> WorkerOk(c, s.log, s.workers[w]))
    && DiskOk(c, s)
  }

  lemma FamilySound<K(!new), M(!new)>(c: Contract<K, M>, logs: map<K, Log>)
    requires Lawful(c) && LogsOk(c, logs)
    ensures SoundFamily(c, ReplayAll(c, logs))
  {
    forall k | k in logs ensures c.sound(Replay(c, k, logs[k])) {
      ReplayCounters(c, k, logs[k]);
    }
  }

  /** A save leaves a file that loads as this family, or does not load, or is the one that was there. */
  lemma SaveKeepsDiskOk<K(!new), M(!new)>(c: Contract<K, M>, s: Sys<K, M>, s': Sys<K, M>, disk: Option<Bytes>)
    requires Lawful(c) && LogsOk(c, s'.log) && s'.live == ReplayAll(c, s'.log)
    requires Saved(c, s, s'.live, s'.log, s', disk)
    requires disk == s.disk && s'.saved == s.saved ==> DiskOk(c, s')
    ensures DiskOk(c, s')
  {
    if !(disk == s.disk && s'.saved == s.saved) {
      FreshWriteOk(c, s');
    }
  }

  lemma FreshWriteOk<K(!new), M(!new)>(c: Contract<K, M>, s: Sys<K, M>)
    requires Lawful(c) && LogsOk(c, s.log) && s.saved == s.log
    requires s.disk.Some? ==> s.disk.value <= c.encode(ReplayAll(c, s.log))
    ensures DiskOk(c, s)
  {
    hide LogsOk, Replay;
    FamilySound(c, s.log);
    if s.disk.Some? {
      var whole := c.encode(ReplayAll(c, s.log));
      assert s.disk.value == whole || s.disk.value < whole;
    }
  }

  lemma GenesisIsReplay<K(!new), M(!new)>(c: Contract<K, M>)
    ensures ReplayAll(c, NoJobs(c)) == Genesis(c) && LogsOk(c, NoJobs(c))
  {
  }

  lemma InitInv<K(!new), M(!new)>(c: Contract<K, M>, s: Sys<K, M>)
    requires Lawful(c) && Init(c, s)
    ensures Inv(c, s, 0)
  {
    GenesisIsReplay(c);
    FreshWriteOk(c, s);
  }

  lemma SnapshotInv<K(!new), M(!new)>(c: Contract<K, M>, s: Sys<K, M>, e: Event<K>, s': Sys<K, M>, bound: nat)
    requires Lawful(c) && Inv(c, s, bound) && bound <= MAX_U64 && e.Snapshot? && Next(c, s, e, s')
    ensures Inv(c, s', bound)
  {
    var k := e.key;
    ReplayCounters(c, k, s.log[k]);
    assert s.log[k][..|s.log[k]|] == s.log[k];
    assert WorkerOk(c, s.log, s'.workers[e.w]);
  }

  lemma CheckInv<K(!new), M(!new)>(c: Contract<K, M>, s: Sys<K, M>, e: Event<K>, s': Sys<K, M>, bound: nat)
    requires Lawful(c) && Inv(c, s, bound) && e.Check? && Next(c, s, e, s')
    ensures Inv(c, s', bound)
  {
    assert WorkerOk(c, s.log, s.workers[e.w]);
    assert WorkerOk(c, s.log, s'.workers[e.w]);
  }

  /** Appending a job to one log leaves every earlier snapshot and advance as good as it was. */
  lemma WorkerOkGrows<K(!new), M(!new)>(c: Contract<K, M>, logs: map<K, Log>, key: K, entry: Entry, p: Worker<K, M>)
    requires key in logs && WorkerOk(c, logs, p)
    ensures WorkerOk(c, logs[key := logs[key] + [entry]], p)
  {
    if !p.Idle? {
      var n := if p.Checking? then p.epoch else p.adv.jobEpoch;
      assert (logs[key] + [entry])[..|logs[key]|] == logs[key];
      if p.key == key {
        assert (logs[key] + [entry])[..n] == logs[key][..n];
      }
    }
  }

  lemma LineageGrows<K(!new), M(!new)>(c: Contract<K, M>, key: K, log: Log, e: Entry)
    requires Lineage(c, key, log)
    requires c.parse(e.job).Some? && c.parse(e.job).value.key == key && c.parse(e.job).value.epoch == |log|
    requires c.train(Replay(c, key, log).weights, e.job).Some?
    ensures Lineage(c, key, log + [e])
    ensures Replay(c, key, log + [e])
         == Advanced(c, Replay(c, key, log),
                     Advance(|log|, c.parse(e.job).value.steps, c.train(Replay(c, key, log).weights, e.job).value),
                     e.height)
  {
    var log' := log + [e];
    assert log'[..|log|] == log;
    forall i | 0 <= i < |log'| ensures EntryOk(c, key, log', i) {
      if i < |log| {
        assert EntryOk(c, key, log, i);
        assert log'[..i] == log[..i];
      }
    }
  }

  lemma CommitInv<K(!new), M(!new)>(c: Contract<K, M>, s: Sys<K, M>, e: Event<K>, s': Sys<K, M>, bound: nat)
    requires Lawful(c) && Inv(c, s, bound) && bound <= MAX_U64 && e.Commit? && Next(c, s, e, s')
    ensures Inv(c, s', bound + 1)
  {
    var p := s.workers[e.w];
    var k := p.key;
    assert WorkerOk(c, s.log, p);
    ReplayCounters(c, k, s.log[k]);
    assert s.log[k][..|s.log[k]|] == s.log[k];
    if p.adv.jobEpoch == s.live[k].epoch {
      AcceptedCommitInv(c, s, e, s', bound);
    }
  }

  /** The commit that wins: the advance was computed from exactly the live weights. */
  lemma AcceptedCommitInv<K(!new), M(!new)>(c: Contract<K, M>, s: Sys<K, M>, e: Event<K>, s': Sys<K, M>, bound: nat)
    requires Lawful(c) && Inv(c, s, bound) && e.Commit? && Next(c, s, e, s')
    requires var p := s.workers[e.w];
      && p.adv.jobEpoch == s.live[p.key].epoch == |s.log[p.key]|
      && c.parse(p.job) == Some(JobSpec(p.key, p.adv.jobEpoch, p.adv.steps))
      && c.train(Replay(c, p.key, s.log[p.key]).weights, p.job) == Some(p.adv.trained)
    ensures Inv(c, s', bound + 1)
  {
    hide Lineage, EntryOk, Advanced, WorkerOk, DiskOk, Replay;
    var p := s.workers[e.w];
    var k := p.key;
    var entry := Entry(p.job, e.height);
    LineageGrows(c, k, s.log[k], entry);
    assert s'.log == s.log[k := s.log[k] + [entry]];
    forall w | w in s'.workers ensures WorkerOk(c, s'.log, s'.workers[w]) {
      if w == e.w {
        IdleOk(c, s'.log);
      } else {
        WorkerOkGrows(c, s.log, k, entry, s.workers[w]);
      }
    }
    assert s'.live == ReplayAll(c, s'.log);
    if e.disk == s.disk && s'.saved == s.saved {
      DiskOkGrows(c, s, s', k, entry);
    }
    SaveKeepsDiskOk(c, s, s', e.disk);
  }

  lemma IdleOk<K(!new), M(!new)>(c: Contract<K, M>, logs: map<K, Log>)
    ensures WorkerOk(c, logs, Idle)
  {
  }

  lemma DiskOkGrows<K(!new), M(!new)>(c: Contract<K, M>, s: Sys<K, M>, s': Sys<K, M>, key: K, entry: Entry)
    requires DiskOk(c, s) && s'.disk == s.disk && s'.saved == s.saved
    requires key in s.log && s'.log == s.log[key := s.log[key] + [entry]]
    ensures DiskOk(c, s')
  {
  }

  lemma RestartInv<K(!new), M(!new)>(c: Contract<K, M>, s: Sys<K, M>, e: Event<K>, s': Sys<K, M>, bound: nat)
    requires Lawful(c) && Inv(c, s, bound) && e.Restart? && Next(c, s, e, s')
    ensures Inv(c, s', bound)
  {
    GenesisIsReplay(c);
    if !(s.disk.Some? && c.decode(s.disk.value).Some?) {
      SaveKeepsDiskOk(c, s, s', e.disk);
    }
  }

  lemma StepInv<K(!new), M(!new)>(c: Contract<K, M>, s: Sys<K, M>, e: Event<K>, s': Sys<K, M>, bound: nat)
    requires Lawful(c) && Inv(c, s, bound) && bound <= MAX_U64 && Next(c, s, e, s')
    ensures Inv(c, s', bound + 1)
  {
    hide Next, LogsOk, WorkerOk, DiskOk;
    match e
    case Snapshot(_, _, _, _) => SnapshotInv(c, s, e, s', bound);
    case Check(_) => CheckInv(c, s, e, s', bound);
    case Commit(_, _, _) => CommitInv(c, s, e, s', bound);
    case Restart(_) => RestartInv(c, s, e, s', bound);
  }

  // ---------- whole runs ----------

  ghost predicate Run<K(!new), M(!new)>(c: Contract<K, M>, states: seq<Sys<K, M>>, events: seq<Event<K>>) {
    && |states| == |events| + 1
    && Init(c, states[0])
    && forall i :: 0 <= i < |events| ==> Next(c, states[i], events[i], states[i + 1])
  }

  lemma {:induction false} RunInv<K(!new), M(!new)>(c: Contract<K, M>, states: seq<Sys<K, M>>, events: seq<Event<K>>,
                                                    i: nat)
    requires Lawful(c) && Run(c, states, events) && i <= |events| && |events| <= MAX_U64
    ensures Inv(c, states[i], i)
  {
    hide Next, Init, Inv, Lawful;
    if i == 0 {
      InitInv(c, states[0]);
    } else {
      RunInv(c, states, events, i - 1);
      StepInv(c, states[i - 1], events[i - 1], states[i], i - 1);
    }
  }

  /**
   In every state of every run, whatever the interleaving, interrupted saves and restarts:
   each live brain is genesis folded through its accepted jobs, the i-th of which named epoch i
   and was trained on the weights of epoch i, and its counters are those of that history.
   */
  lemma LiveIsGenesisFolded<K(!new), M(!new)>(c: Contract<K, M>, states: seq<Sys<K, M>>, events: seq<Event<K>>,
                                              i: nat, k: K)
    requires Lawful(c) && Run(c, states, events) && i <= |events| && |events| <= MAX_U64
    requires k in c.keys
    ensures k in states[i].live && k in states[i].log
    ensures var b, log := states[i].live[k], states[i].log[k];
      && Lineage(c, k, log)
      && b == Replay(c, k, log)
      && b.epoch == b.advances == |log|
      && b.stepsTotal == Min(StepsOf(c, log), MAX_U64)
      && c.sound(b)
  {
    RunInv(c, states, events, i);
    ReplayCounters(c, k, states[i].log[k]);
  }

  /**
   In every run, a check leaves its worker with an advance in hand just when the job was for the brain
   and epoch of the snapshot and the output handed in is what that job makes of the weights of that
   epoch of the lineage. So no output that training would not have produced ever gets past a check.
   */
  lemma OnlyTrainedOutputsPass<K(!new), M(!new)>(c: Contract<K, M>, states: seq<Sys<K, M>>, events: seq<Event<K>>,
                                                 i: nat)
    requires Lawful(c) && Run(c, states, events) && i < |events| <= MAX_U64 && events[i].Check?
    ensures var w := events[i].w;
      && w in states[i].workers && w in states[i + 1].workers && states[i].workers[w].Checking?
      && var p := states[i].workers[w];
         && p.key in states[i].log && p.epoch <= |states[i].log[p.key]|
         && var spec := c.parse(p.job);
            var t := c.train(Replay(c, p.key, states[i].log[p.key][..p.epoch]).weights, p.job);
            states[i + 1].workers[w].Ready? <==>
              (spec.Some? && spec.value.key == p.key && spec.value.epoch == p.epoch
               && t.Some? && p.output == t.value.weights)
  {
    hide Lawful, Verify, Replay, LogsOk, DiskOk;
    RunInv(c, states, events, i);
    var w := events[i].w;
    var s, s' := states[i], states[i + 1];
    assert Next(c, s, events[i], s');
    var p := s.workers[w];
    assert WorkerOk(c, s.log, p);
    VerifyAcceptsIff(c, p.key, p.epoch, p.weights, p.job, p.output);
  }

  /**
   What a winning commit leaves live is the output some worker was handed with the job, and what the
   job makes of the weights that were live.
   */
  lemma WinningOutputIsLive<K(!new), M(!new)>(c: Contract<K, M>, states: seq<Sys<K, M>>, events: seq<Event<K>>,
                                              i: nat, k: K)
    requires Lawful(c) && Run(c, states, events) && i < |events| <= MAX_U64 && k in c.keys
    requires Wins(states[i], events[i], k)
    ensures k in states[i + 1].live
    ensures var job := states[i].workers[events[i].w].job;
      && c.train(states[i].live[k].weights, job).Some?
      && states[i + 1].live[k].weights == c.train(states[i].live[k].weights, job).value.weights
      && exists j :: 0 <= j < i && HandedIn(events[j], k, job, states[i + 1].live[k].weights)
  {
    hide Lawful, Replay, LogsOk, DiskOk, Next;
    RunInv(c, states, events, i);
    RunKeys(c, states, events, i, k);
    var p := states[i].workers[events[i].w];
    assert WorkerOk(c, states[i].log, p);
    assert states[i].log[k][..|states[i].log[k]|] == states[i].log[k];
    assert Next(c, states[i], events[i], states[i + 1]);
    CommitEffect(c, states[i], events[i], states[i + 1]);
    var j := WhereReady(c, states, events, i, events[i].w);
  }

  /** A worker was given this job and this output for this brain. */
  ghost predicate HandedIn<K>(e: Event<K>, k: K, job: Bytes, output: Bytes) {
    e.Snapshot? && e.key == k && e.job == job && e.output == output
  }

  lemma {:induction false} WhereReady<K(!new), M(!new)>(c: Contract<K, M>, states: seq<Sys<K, M>>,
                                                        events: seq<Event<K>>, i: nat, w: nat)
    returns (j: nat)
    requires Lawful(c) && Run(c, states, events) && i <= |events| <= MAX_U64
    requires w in states[i].workers && !states[i].workers[w].Idle?
    ensures j < i
    ensures var p := states[i].workers[w];
      HandedIn(events[j], p.key, p.job, if p.Checking? then p.output else p.adv.trained.weights)
  {
    hide Lawful, Verify, Apply, Replay, LogsOk, DiskOk, WorkerOk, Saved;
    assert i > 0;
    var s, e := states[i - 1], events[i - 1];
    assert Next(c, s, e, states[i]);
    if e.Snapshot? && e.w == w {
      j := i - 1;
    } else {
      if e.Check? && e.w == w {
        var p := s.workers[w];
        VerifyAcceptsIff(c, p.key, p.epoch, p.weights, p.job, p.output);
      }
      j := WhereReady(c, states, events, i - 1, w);
    }
  }

  /** A commit that changes a brain, as opposed to a stale one. */
  ghost predicate Wins<K(!new), M(!new)>(s: Sys<K, M>, e: Event<K>, k: K) {
    && e.Commit? && e.w in s.workers && s.workers[e.w].Ready?
    && s.workers[e.w].key == k && k in s.live
    && s.workers[e.w].adv.jobEpoch == s.live[k].epoch
  }

  lemma {:induction false} LogsOnlyGrow<K(!new), M(!new)>(c: Contract<K, M>, states: seq<Sys<K, M>>,
                                                          events: seq<Event<K>>, i: nat, j: nat, k: K)
    requires Lawful(c) && Run(c, states, events) && i <= j <= |events| && |events| <= MAX_U64 && k in c.keys
    requires forall n :: i <= n < j ==> !events[n].Restart?
    ensures k in states[i].log && k in states[j].log && states[i].log[k] <= states[j].log[k]
    decreases j - i
  {
    hide Lawful, Init, LogsOk, WorkerOk, DiskOk, ReplayAll;
    RunKeys(c, states, events, j, k);
    if i < j {
      LogsOnlyGrow(c, states, events, i, j - 1, k);
      assert Next(c, states[j - 1], events[j - 1], states[j]);
    }
  }

  lemma RunKeys<K(!new), M(!new)>(c: Contract<K, M>, states: seq<Sys<K, M>>, events: seq<Event<K>>, i: nat, k: K)
    requires Lawful(c) && Run(c, states, events) && i <= |events| <= MAX_U64 && k in c.keys
    ensures k in states[i].log && k in states[i].live
    ensures states[i].live[k].epoch == |states[i].log[k]|
  {
    LiveIsGenesisFolded(c, states, events, i, k);
  }

  /** Between restarts no epoch of a brain is advanced twice: winning commits name growing epochs. */
  lemma EachEpochWonOnce<K(!new), M(!new)>(c: Contract<K, M>, states: seq<Sys<K, M>>, events: seq<Event<K>>, i: nat,
                                           j: nat, k: K)
    requires Lawful(c) && Run(c, states, events) && i < j < |events| && |events| <= MAX_U64 && k in c.keys
    requires forall n :: i <= n < j ==> !events[n].Restart?
    requires Wins(states[i], events[i], k) && Wins(states[j], events[j], k)
    ensures states[i].workers[events[i].w].adv.jobEpoch < states[j].workers[events[j].w].adv.jobEpoch
  {
    RunKeys(c, states, events, i, k);
    RunKeys(c, states, events, j, k);
    WinGrowsLog(c, states, events, i, k);
    LogsOnlyGrow(c, states, events, i + 1, j, k);
  }

  lemma WinGrowsLog<K(!new), M(!new)>(c: Contract<K, M>, states: seq<Sys<K, M>>, events: seq<Event<K>>, i: nat, k: K)
    requires Lawful(c) && Run(c, states, events) && i < |events| <= MAX_U64 && k in c.keys
    requires Wins(states[i], events[i], k)
    ensures k in states[i].log && k in states[i + 1].log && |states[i + 1].log[k]| == |states[i].log[k]| + 1
  {
    hide Lawful, Init, LogsOk, WorkerOk, DiskOk, ReplayAll;
    RunKeys(c, states, events, i, k);
    assert Next(c, states[i], events[i], states[i + 1]);
  }

  /** A commit touches at most the brain of its own key. */
  lemma CommitFrame<K(!new), M(!new)>(c: Contract<K, M>, s: Sys<K, M>, e: Event<K>, s': Sys<K, M>, k: K)
    requires e.Commit? && Next(c, s, e, s') && k in s.live && k in s.log && s.workers[e.w].key != k
    ensures k in s'.live && s'.live[k] == s.live[k]
    ensures k in s'.log && s'.log[k] == s.log[k]
  {
  }

  /** Commits on different brains commute: either order gives the same brains, logs and workers. */
  lemma CommitsCommute<K(!new), M(!new)>(c: Contract<K, M>, s: Sys<K, M>, e1: Event<K>, e2: Event<K>,
                                         a: Sys<K, M>, ab: Sys<K, M>, b: Sys<K, M>, ba: Sys<K, M>)
    requires e1.Commit? && e2.Commit? && e1.w != e2.w
    requires e1.w in s.workers && e2.w in s.workers && s.workers[e1.w].Ready? && s.workers[e2.w].Ready?
    requires s.workers[e1.w].key != s.workers[e2.w].key
    requires Next(c, s, e1, a) && Next(c, a, e2, ab)
    requires Next(c, s, e2, b) && Next(c, b, e1, ba)
    ensures ab.live == ba.live && ab.log == ba.log && ab.workers == ba.workers
  {
    hide Next, Advanced;
    CommitEffect(c, s, e1, a);
    CommitEffect(c, a, e2, ab);
    CommitEffect(c, s, e2, b);
    CommitEffect(c, b, e1, ba);
    var p, q := s.workers[e1.w], s.workers[e2.w];
    var x, y := s.live[p.key], s.live[q.key];
    var wonP, wonQ := p.adv.jobEpoch == x.epoch, q.adv.jobEpoch == y.epoch;
    assert a.workers[e2.w] == q && b.workers[e1.w] == p;
    assert a.live[q.key] == y && b.live[p.key] == x;
    assert a.log[q.key] == s.log[q.key] && b.log[p.key] == s.log[p.key];
    UpdatesCommute(s.workers, true, e1.w, Idle, true, e2.w, Idle);
    UpdatesCommute(s.live, wonP, p.key, Advanced(c, x, p.adv, e1.height),
                   wonQ, q.key, Advanced(c, y, q.adv, e2.height));
    UpdatesCommute(s.log, wonP, p.key, s.log[p.key] + [Entry(p.job, e1.height)], wonQ, q.key,
                   s.log[q.key] + [Entry(q.job, e2.height)]);
  }

  function UpdateIf<K, V>(m: map<K, V>, when: bool, k: K, v: V): map<K, V> {
    if when then m[k := v] else m
  }

  lemma UpdatesCommute<K, V>(m: map<K, V>, c1: bool, k1: K, v1: V, c2: bool, k2: K, v2: V)
    requires k1 != k2
    ensures UpdateIf(UpdateIf(m, c1, k1, v1), c2, k2, v2) == UpdateIf(UpdateIf(m, c2, k2, v2), c1, k1, v1)
  {
  }

  lemma CommitEffect<K(!new), M(!new)>(c: Contract<K, M>, s: Sys<K, M>, e: Event<K>, s': Sys<K, M>)
    requires e.Commit? && Next(c, s, e, s')
    ensures e.w in s.workers && s.workers[e.w].Ready? && s.workers[e.w].key in s.live && s.workers[e.w].key in s.log
    ensures var p := s.workers[e.w];
      var won := p.adv.jobEpoch == s.live[p.key].epoch;
      && s'.workers == UpdateIf(s.workers, true, e.w, Idle)
      && s'.live == UpdateIf(s.live, won, p.key, Advanced(c, s.live[p.key], p.adv, e.height))
      && s'.log == UpdateIf(s.log, won, p.key, s.log[p.key] + [Entry(p.job, e.height)])
  {
    hide Advanced;
  }

  // ---------- crashes ----------

  /** What a restart brings back: the saved family, which is an earlier point of each lineage, or genesis. */
  lemma RestartOutcome<K(!new), M(!new)>(c: Contract<K, M>, states: seq<Sys<K, M>>, events: seq<Event<K>>, i: nat)
    requires Lawful(c) && Run(c, states, events) && i < |events| <= MAX_U64 && events[i].Restart?
    ensures Extends(states[i + 1].log, states[i].log)
    ensures states[i + 1].live == ReplayAll(c, states[i + 1].log)
    ensures states[i + 1].log == states[i].saved || states[i + 1].log == NoJobs(c)
  {
    RunInv(c, states, events, i);
    RunInv(c, states, events, i + 1);
    assert Next(c, states[i], events[i], states[i + 1]);
  }

  /**
   A winning commit, a save cut at any byte, a restart: the new family if the save was whole,
   genesis if any byte was missing, and what was on disk before if the write never began.
   */
  lemma CrashDuringSave<K(!new), M(!new)>(c: Contract<K, M>, states: seq<Sys<K, M>>, events: seq<Event<K>>, i: nat,
                                          k: K)
    requires Lawful(c) && Run(c, states, events) && i + 1 < |events| <= MAX_U64
    requires Wins(states[i], events[i], k) && events[i + 1].Restart? && k in c.keys
    ensures var whole := c.encode(states[i + 1].live);
      var disk := states[i + 1].disk;
      var after := states[i + 2].live;
      && (disk == Some(whole) ==> after == states[i + 1].live)
      && (disk.Some? && disk.value < whole ==> after == Genesis(c))
      && (!(disk.Some? && disk.value <= whole) ==>
            disk == states[i].disk && (after == ReplayAll(c, states[i].saved) || after == Genesis(c)))
  {
    hide WorkerOk, Init;
    RunInv(c, states, events, i);
    RunInv(c, states, events, i + 1);
    assert Next(c, states[i], events[i], states[i + 1]);
    assert Next(c, states[i + 1], events[i + 1], states[i + 2]);
    RestartFrom(c, states[i + 1], events[i + 1], states[i + 2]);
  }

  lemma RestartFrom<K(!new), M(!new)>(c: Contract<K, M>, s: Sys<K, M>, e: Event<K>, s': Sys<K, M>)
    requires Lawful(c) && LogsOk(c, s.log) && s.live == ReplayAll(c, s.log) && DiskOk(c, s)
    requires e.Restart? && Next(c, s, e, s')
    ensures s.disk == Some(c.encode(s.live)) ==> s'.live == s.live
    ensures s.disk.Some? && s.disk.value < c.encode(s.live) ==> s'.live == Genesis(c)
    ensures s'.live == ReplayAll(c, s.saved) || s'.live == Genesis(c)
  {
    hide LogsOk, Replay, WorkerOk;
    FamilySound(c, s.log);
  }

  // ---------- the end of the counter ----------

  /**
   Applying moves the epoch on just when the counter has room; at the top a second advance for the same
   epoch is accepted.
   */
  lemma EpochAdvancesIff<K(!new), M(!new)>(c: Contract<K, M>, b: Core<M>, adv: Advance<M>, adv2: Advance<M>, h: u64)
    requires adv.jobEpoch == b.epoch == adv2.jobEpoch
    ensures Apply(c, b, adv, h).Accepted?
    ensures Apply(c, Apply(c, b, adv, h).value, adv2, h).Refused? <==> b.epoch < MAX_U64
  {
  }
}
