/**
 The optimistic protocol that advances shared brains (crates/mesh-ai-v2/src/brain.rs,
 crates/mesh-ai/src/leg_brain.rs, crates/mesh-ai/src/orchestrator.rs): a result is checked
 against a snapshot outside the lock and committed under the lock if the epoch still matches.

 One lock guards a family of brains, each with its own key and its own epoch: one for the v2
 brain, four for the guardian pack. State machine, crash and restart are written once here.
 */
module Protocol {
  import opened Machine

  datatype JobSpec<+K> = JobSpec(key: K, epoch: u64, steps: u32)

  datatype Trained<+M> = Trained(weights: Bytes, digest: Digest, report: M)

  datatype Core<+M> = Core(epoch: u64, weights: Bytes, digest: Digest, height: u64,
                           stepsTotal: u64, advances: u64, report: M)

  datatype Advance<+M> = Advance(jobEpoch: u64, steps: u32, trained: Trained<M>)

  datatype Refusal = BadJob | StaleEpoch(job: u64, live: u64) | TrainFailed | VerifyFailed

  datatype Verdict<+T> = Accepted(value: T) | Refused(why: Refusal)

  /** What distinguishes one kind of brain from another. */
  datatype Contract<!K(==,!new), !M(!new)> = Contract(
    keys: set<K>,
    parse: Bytes -> Option<JobSpec<K>>,
    train: (Bytes, Bytes) -> Option<Trained<M>>,
    genesis: K -> Core<M>,
    stamp: u64 -> u64,
    sound: Core<M> -> bool,
    encode: map<K, Core<M>> -> Bytes,
    decode: Bytes -> Option<map<K, Core<M>>>)

  // ---------- the two halves of an advance ----------

  /** `verify_only`: re-execute a job on a brain's epoch and weights and compare outputs. */
  function Verify<K(!new), M(!new)>(c: Contract<K, M>, key: K, epoch: u64, weights: Bytes, job: Bytes, output: Bytes)
    : Verdict<Advance<M>>
  {
    match c.parse(job)
    case None => Refused(BadJob)
    case Some(spec) =>
      if spec.key != key || spec.epoch != epoch then Refused(StaleEpoch(spec.epoch, epoch))
      else
        match c.train(weights, job)
        case None => Refused(TrainFailed)
        case Some(t) =>
          if output != t.weights then Refused(VerifyFailed)
          else Accepted(Advance(spec.epoch, spec.steps, t))
  }

  /**
   Nothing but the job's own result is accepted: an output passes just when its job parses, is for this
   brain and epoch, trains on these weights, and trains to that very output. Each refusal has its reason.
   */
  lemma VerifyAcceptsIff<K(!new), M(!new)>(c: Contract<K, M>, key: K, epoch: u64, weights: Bytes, job: Bytes,
                                           output: Bytes)
    ensures var v, spec, t := Verify(c, key, epoch, weights, job, output), c.parse(job), c.train(weights, job);
      var mine := spec.Some? && spec.value.key == key && spec.value.epoch == epoch;
      && (v.Accepted? <==> mine && t.Some? && output == t.value.weights)
      && (v.Accepted? ==> v.value == Advance(epoch, spec.value.steps, t.value))
      && (v == Refused(BadJob) <==> spec.None?)
      && (v.Refused? && v.why.StaleEpoch? <==> spec.Some? && !mine)
      && (v == Refused(TrainFailed) <==> mine && t.None?)
      && (v == Refused(VerifyFailed) <==> mine && t.Some? && output != t.value.weights)
  {
  }

  /** The fields `apply_advance` writes once the epoch has been found to match. */
  function Advanced<K(!new), M(!new)>(c: Contract<K, M>, b: Core<M>, adv: Advance<M>, height: u64): Core<M> {
    Core(SaturatingAdd64(b.epoch, 1), adv.trained.weights, adv.trained.digest, c.stamp(height),
         SaturatingAdd64(b.stepsTotal, adv.steps), SaturatingAdd64(b.advances, 1), adv.trained.report)
  }

  /** `apply_advance`. */
  function Apply<K(!new), M(!new)>(c: Contract<K, M>, b: Core<M>, adv: Advance<M>, height: u64): Verdict<Core<M>> {
    if adv.jobEpoch != b.epoch then Refused(StaleEpoch(adv.jobEpoch, b.epoch))
    else Accepted(Advanced(c, b, adv, height))
  }

  // ---------- lineage ----------

  datatype Entry = Entry(job: Bytes, height: u64)

  type Log = seq<Entry>

  /** A brain as a function of the jobs it accepted, starting from genesis. */
  function Replay<K(!new), M(!new)>(c: Contract<K, M>, key: K, log: Log): Core<M> {
    if log == [] then c.genesis(key)
    else
      var before := Replay(c, key, log[..|log| - 1]);
      var e := log[|log| - 1];
      match (c.parse(e.job), c.train(before.weights, e.job))
      case (Some(spec), Some(t)) => Advanced(c, before, Advance(spec.epoch, spec.steps, t), e.height)
      case _ => before
  }

  /** Entry i parses, is for this brain, names epoch i, and trains on the weights of epoch i. */
  ghost predicate EntryOk<K(!new), M(!new)>(c: Contract<K, M>, key: K, log: Log, i: nat)
    requires i < |log|
  {
    && c.parse(log[i].job).Some?
    && c.parse(log[i].job).value.key == key
    && c.parse(log[i].job).value.epoch == i
    && c.train(Replay(c, key, log[..i]).weights, log[i].job).Some?
  }

  ghost predicate Lineage<K(!new), M(!new)>(c: Contract<K, M>, key: K, log: Log) {
    forall i :: 0 <= i < |log| ==> EntryOk(c, key, log, i)
  }

  function StepsOf<K(!new), M(!new)>(c: Contract<K, M>, log: Log): nat {
    if log == [] then 0
    else
      StepsOf(c, log[..|log| - 1])
      + match c.parse(log[|log| - 1].job) case Some(spec) => spec.steps case None => 0
  }

  lemma LineagePrefix<K(!new), M(!new)>(c: Contract<K, M>, key: K, log: Log, n: nat)
    requires Lineage(c, key, log) && n <= |log|
    ensures Lineage(c, key, log[..n])
  {
    forall i | 0 <= i < n ensures EntryOk(c, key, log[..n], i) {
      assert EntryOk(c, key, log, i);
      assert log[..n][..i] == log[..i];
    }
  }

  // ---------- what a contract must provide ----------

  ghost predicate SoundFamily<K(!new), M(!new)>(c: Contract<K, M>, brains: map<K, Core<M>>) {
    brains.Keys == c.keys && forall k :: k in brains ==> c.sound(brains[k])
  }

  /** Genesis is epoch zero, training keeps brains storable, and storing is a prefix code. */
  ghost predicate Lawful<K(!new), M(!new)>(c: Contract<K, M>) {
    && (forall k :: k in c.keys ==>
          && c.genesis(k).epoch == c.genesis(k).stepsTotal == c.genesis(k).advances == 0
          && c.sound(c.genesis(k)))
    && (forall b: Core<M>, w, job, steps: u32, epoch: u64, h: u64 ::
          c.sound(b) && c.train(w, job).Some? ==>
          c.sound(Advanced(c, b, Advance(epoch, steps, c.train(w, job).value), h)))
    && (forall brains :: SoundFamily(c, brains) ==> c.decode(c.encode(brains)) == Some(brains))
    && (forall brains, cut :: SoundFamily(c, brains) && cut < c.encode(brains) ==> c.decode(cut) == None)
  }

  /** Along a lineage the counters say exactly how far it has come, and the brain stays storable. */
  lemma {:induction false} ReplayCounters<K(!new), M(!new)>(c: Contract<K, M>, key: K, log: Log)
    requires Lawful(c) && key in c.keys && Lineage(c, key, log)
    ensures c.sound(Replay(c, key, log))
    ensures |log| <= MAX_U64 ==>
      && Replay(c, key, log).epoch == |log|
      && Replay(c, key, log).advances == |log|
      && Replay(c, key, log).stepsTotal == Min(StepsOf(c, log), MAX_U64)
  {
    if log != [] {
      var n := |log| - 1;
      LineagePrefix(c, key, log, n);
      ReplayCounters(c, key, log[..n]);
      assert EntryOk(c, key, log, n);
    }
  }
}
