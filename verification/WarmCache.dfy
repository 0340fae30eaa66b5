/** What a call leaves in the cache directory for the next one: a call whose writes all succeed makes the
    next call on the same packages run no check at all. */
module WarmCache {
  import opened CachedPool
  import opened Options
  import C = ResultCache
  import K = CacheKey
  import L = CacheLaws
  import W = WorkerPool

  /** Every job of the call has an entry that a look-up accepts. */
  ghost predicate Warm(r: Run, disk: C.Disk) {
    forall job: nat :: r.Has(job) ==> InCache(r, disk, job)
  }

  ghost predicate InCache(r: Run, disk: C.Disk, job: nat)
    requires r.Has(job)
  {
    C.Lookup(disk, r.Path(job), r.Hash(job)).Some?
  }

  /** Jobs that share a file have the same hash. */
  ghost predicate OneHashPerFile(r: Run) {
    forall i: nat, j: nat :: r.Has(i) && r.Has(j) && r.Path(i) == r.Path(j) ==> r.Hash(i) == r.Hash(j)
  }

  /** Nothing but the call itself touches the files of its jobs. */
  ghost predicate Undisturbed(r: Run, step: Step) {
    step.Other? ==> forall job: nat :: r.Has(job) ==> L.Target(r.world, step.event) != r.Path(job)
  }

  ghost predicate AllUndisturbed(r: Run, steps: seq<Step>) {
    forall i :: 0 <= i < |steps| ==> Undisturbed(r, steps[i])
  }

  ghost predicate AllWritten(steps: seq<Step>) {
    forall i :: 0 <= i < |steps| && steps[i].Store? ==> steps[i].written
  }

  lemma StepInCache(r: Run, packages: set<K.Package>, s: State, step: Step, job: nat)
    requires Enabled(r, packages, s, step) && Undisturbed(r, step) && OneHashPerFile(r)
    requires r.Has(job) && InCache(r, s.disk, job)
    ensures InCache(r, Apply(r, packages, s, step).disk, job)
  {
    if step.Other? {
      L.StepElsewhere(r.world, s.disk, step.event, r.Path(job), r.Hash(job));
    }
  }

  // ---------- A warm directory ----------

  /** No worker has missed the cache. */
  ghost predicate NoneMissed(s: State) {
    forall p :: p in s.phases ==> p.Waiting? || p.Received? || p.Found?
  }

  /** On a warm directory a look-up never misses, so a step neither runs a check nor counts an execution. */
  lemma {:induction false} WarmStep(r: Run, packages: set<K.Package>, s: State, step: Step, group: string)
    requires r.pool.cached && OneHashPerFile(r) && Warm(r, s.disk) && NoneMissed(s)
    requires Enabled(r, packages, s, step) && Undisturbed(r, step)
    ensures var t := Apply(r, packages, s, step); Warm(r, t.disk) && NoneMissed(t)
    ensures !Records(r, s, step, group, false)
  {
    var t := Apply(r, packages, s, step);
    forall job: nat | r.Has(job) ensures InCache(r, t.disk, job) { StepInCache(r, packages, s, step, job); }
    forall p | p in t.phases ensures p.Waiting? || p.Received? || p.Found? {
      var w :| 0 <= w < |t.phases| && t.phases[w] == p;
      assert s.phases[w] in s.phases;
    }
  }

  lemma {:induction false} WarmRun(r: Run, packages: set<K.Package>, s: State, steps: seq<Step>, group: string)
    requires r.pool.cached && OneHashPerFile(r) && Warm(r, s.disk) && NoneMissed(s)
    requires Executable(r, packages, s, steps) && AllUndisturbed(r, steps)
    ensures Taken(r, packages, s, steps, group, false) == 0
    ensures Warm(r, After(r, packages, s, steps).disk)
    decreases |steps|
  {
    if steps == [] {
    } else {
      WarmStep(r, packages, s, steps[0], group);
      WarmRun(r, packages, Apply(r, packages, s, steps[0]), steps[1..], group);
    }
  }

  // ---------- A call that fills the directory ----------

  /** What is stamped for recording is in the cache. */
  ghost predicate StampedAreCached(r: Run, s: State) {
    forall job :: job in s.stamped && r.Has(job) ==> InCache(r, s.disk, job)
  }

  ghost predicate PhaseCached(r: Run, disk: C.Disk, worker: W.Worker, phase: Phase) {
    worker.Executing? && r.Has(worker.job) && (phase.Stored? || phase.Found?) ==> InCache(r, disk, worker.job)
  }

  /** Workers about to record a job have it in the cache. */
  ghost predicate PhasesCached(r: Run, s: State) {
    |s.phases| == |s.pool.workers| &&
    forall w :: 0 <= w < |s.phases| ==> PhaseCached(r, s.disk, s.pool.workers[w], s.phases[w])
  }

  ghost predicate CollectedAreStamped(s: State) { forall job :: job in s.pool.collected ==> job in s.stamped }

  lemma {:induction false} StampedStep(r: Run, packages: set<K.Package>, s: State, step: Step, job: nat)
    requires OneHashPerFile(r) && StampedAreCached(r, s) && PhasesCached(r, s)
    requires Enabled(r, packages, s, step) && Undisturbed(r, step) && r.Has(job)
    requires job in Apply(r, packages, s, step).stamped
    ensures InCache(r, Apply(r, packages, s, step).disk, job)
  {
    if job in s.stamped {
      StepInCache(r, packages, s, step, job);
    } else {
      assert step.Record? && s.pool.workers[step.worker].job == job;
      assert PhaseCached(r, s.disk, s.pool.workers[step.worker], s.phases[step.worker]);
    }
  }

  lemma MoveAlters(r: Run, packages: set<K.Package>, s: State, step: Step, w: nat)
    requires PhasesCached(r, s) && Enabled(r, packages, s, step) && step.Move?
    requires w < |Apply(r, packages, s, step).phases| && w < |Apply(r, packages, s, step).pool.workers|
    ensures var t := Apply(r, packages, s, step); PhaseCached(r, t.disk, t.pool.workers[w], t.phases[w])
  {
    assert PhaseCached(r, s.disk, s.pool.workers[w], s.phases[w]);
  }

  lemma LocalAlters(r: Run, packages: set<K.Package>, s: State, step: Step, w: nat)
    requires r.pool.cached && PhasesCached(r, s)
    requires Enabled(r, packages, s, step) && (step.Load? || step.Check? || step.Record?)
    requires w < |Apply(r, packages, s, step).phases| && w < |Apply(r, packages, s, step).pool.workers|
    ensures var t := Apply(r, packages, s, step); PhaseCached(r, t.disk, t.pool.workers[w], t.phases[w])
  {
    assert PhaseCached(r, s.disk, s.pool.workers[w], s.phases[w]);
  }

  lemma DiskAlters(r: Run, packages: set<K.Package>, s: State, step: Step, w: nat)
    requires r.pool.cached && OneHashPerFile(r) && PhasesCached(r, s)
    requires Enabled(r, packages, s, step) && Undisturbed(r, step)
    requires (step.Store? && step.written) || step.Other?
    requires w < |Apply(r, packages, s, step).phases| && w < |Apply(r, packages, s, step).pool.workers|
    ensures var t := Apply(r, packages, s, step); PhaseCached(r, t.disk, t.pool.workers[w], t.phases[w])
  {
    assert PhaseCached(r, s.disk, s.pool.workers[w], s.phases[w]);
    if s.pool.workers[w].Executing? && r.Has(s.pool.workers[w].job) && (s.phases[w].Stored? || s.phases[w].Found?) {
      StepInCache(r, packages, s, step, s.pool.workers[w].job);
    }
  }

  /** A worker that enters one of the last phases has just found its job or stored it. */
  lemma {:induction false} PhaseStep(r: Run, packages: set<K.Package>, s: State, step: Step, w: nat)
    requires r.pool.cached && OneHashPerFile(r) && PhasesCached(r, s)
    requires Enabled(r, packages, s, step) && Undisturbed(r, step) && (step.Store? ==> step.written)
    requires w < |Apply(r, packages, s, step).phases| && w < |Apply(r, packages, s, step).pool.workers|
    ensures var t := Apply(r, packages, s, step); PhaseCached(r, t.disk, t.pool.workers[w], t.phases[w])
  {
    if step.Move? {
      MoveAlters(r, packages, s, step, w);
    } else if step.Load? || step.Check? || step.Record? {
      LocalAlters(r, packages, s, step, w);
    } else {
      DiskAlters(r, packages, s, step, w);
    }
  }

  lemma {:induction false} FillingStep(r: Run, packages: set<K.Package>, s: State, step: Step)
    requires r.pool.cached && OneHashPerFile(r) && StampedAreCached(r, s) && PhasesCached(r, s)
    requires Enabled(r, packages, s, step) && Undisturbed(r, step) && (step.Store? ==> step.written)
    ensures StampedAreCached(r, Apply(r, packages, s, step)) && PhasesCached(r, Apply(r, packages, s, step))
  {
    var t := Apply(r, packages, s, step);
    assert |t.phases| == |t.pool.workers|;
    forall job | job in t.stamped && r.Has(job) ensures InCache(r, t.disk, job) {
      StampedStep(r, packages, s, step, job);
    }
    forall w | 0 <= w < |t.phases| ensures PhaseCached(r, t.disk, t.pool.workers[w], t.phases[w]) {
      PhaseStep(r, packages, s, step, w);
    }
  }

  lemma {:induction false} CollectingStep(r: Run, packages: set<K.Package>, s: State, step: Step)
    requires AllStamped(s) && CollectedAreStamped(s) && Enabled(r, packages, s, step)
    ensures CollectedAreStamped(Apply(r, packages, s, step))
  {
    var t := Apply(r, packages, s, step);
    assert forall job :: job in s.stamped ==> job in t.stamped;
    forall job | job in t.pool.collected ensures job in t.stamped {
      if job !in s.pool.collected {
        assert s.pool.channel[0] in s.pool.channel && s.pool.channel[0].Findings? && s.pool.channel[0].job == job;
      }
    }
  }

  lemma {:induction false} FillingRun(r: Run, packages: set<K.Package>, s: State, steps: seq<Step>)
    requires Invariant(r, packages, s) && r.pool.cached && OneHashPerFile(r)
    requires StampedAreCached(r, s) && PhasesCached(r, s) && CollectedAreStamped(s)
    requires Executable(r, packages, s, steps) && AllUndisturbed(r, steps) && AllWritten(steps)
    ensures StampedAreCached(r, After(r, packages, s, steps)) && CollectedAreStamped(After(r, packages, s, steps))
    decreases |steps|
  {
    if steps == [] {
    } else {
      FillingStep(r, packages, s, steps[0]);
      CollectingStep(r, packages, s, steps[0]);
      StepKeepsInvariant(r, packages, s, steps[0]);
      FillingRun(r, packages, Apply(r, packages, s, steps[0]), steps[1..]);
    }
  }

  /** A completed call whose writes succeed leaves an entry for each of its jobs. */
  lemma {:induction false} FilledAtTermination(r: Run, packages: set<K.Package>, s: State)
    requires Invariant(r, packages, s) && W.Terminal(r.pool, s.pool)
    requires StampedAreCached(r, s) && CollectedAreStamped(s)
    ensures Warm(r, s.disk)
  {
    W.CompleteAtTermination(r.pool, s.pool);
    forall job: nat | r.Has(job) ensures InCache(r, s.disk, job) {
      W.IndicesOnce(|r.pool.jobs|);
      assert multiset(s.pool.collected)[job] == 1;
      assert job in s.pool.collected;
    }
  }

  // ---------- What a call leaves alone ----------

  ghost predicate Spared(r: Run, steps: seq<Step>, path: string) {
    && (r.pool.cached ==> forall job: nat :: r.Has(job) ==> r.Path(job) != path)
    && forall i :: 0 <= i < |steps| && steps[i].Other? ==> L.Target(r.world, steps[i].event) != path
  }

  ghost predicate SameFile(before: C.Disk, after: C.Disk, path: string) {
    (path in after <==> path in before) && (path in before ==> after[path] == before[path])
  }

  /** A call writes the files of its own jobs and no other, and without a cache none at all. */
  lemma {:induction false} OnlyOwnFiles(r: Run, packages: set<K.Package>, s: State, steps: seq<Step>, path: string)
    requires Executable(r, packages, s, steps) && Spared(r, steps, path)
    ensures SameFile(s.disk, After(r, packages, s, steps).disk, path)
    decreases |steps|
  {
    if steps == [] {
    } else {
      var t := Apply(r, packages, s, steps[0]);
      assert SameFile(s.disk, t.disk, path);
      assert Spared(r, steps[1..], path);
      OnlyOwnFiles(r, packages, t, steps[1..], path);
    }
  }

  // ---------- Two calls in a row ----------

  lemma InitialFacts(r: Run, packages: set<K.Package>, disk: C.Disk)
    requires r.Valid(packages) && C.Trusted(r.world, packages, disk)
    ensures var s := Initial(r, disk);
      && Invariant(r, packages, s) && s.disk == disk && Uncounted(s) && NoneMissed(s)
      && StampedAreCached(r, s) && PhasesCached(r, s) && CollectedAreStamped(s)
  {
    InitialInvariant(r, packages, disk);
  }

  /** A call that ends with every write succeeding leaves the directory trusted and warm. */
  lemma {:induction false} FilledCall(r: Run, packages: set<K.Package>, s: State, steps: seq<Step>)
    requires Invariant(r, packages, s) && r.pool.cached && OneHashPerFile(r)
    requires StampedAreCached(r, s) && PhasesCached(r, s) && CollectedAreStamped(s)
    requires Executable(r, packages, s, steps) && AllUndisturbed(r, steps) && AllWritten(steps)
    requires W.Terminal(r.pool, After(r, packages, s, steps).pool)
    ensures var t := After(r, packages, s, steps); C.Trusted(r.world, packages, t.disk) && Warm(r, t.disk)
  {
    FillingRun(r, packages, s, steps);
    RunKeepsInvariant(r, packages, s, steps);
    FilledAtTermination(r, packages, After(r, packages, s, steps));
  }

  /** A call from any trusted directory, run to its end with every write succeeding, followed by a second
      one on the same packages, both in any interleaving and undisturbed in their own files: the second
      runs no check, and counts every job as a hit. */
  lemma {:induction false} SecondCallHits(r: Run, packages: set<K.Package>, disk: C.Disk, first: seq<Step>,
                                          second: seq<Step>, group: string)
    requires r.Valid(packages) && C.Trusted(r.world, packages, disk) && r.pool.cached && OneHashPerFile(r)
    requires Executable(r, packages, Initial(r, disk), first) && AllUndisturbed(r, first) && AllWritten(first)
    requires var s := After(r, packages, Initial(r, disk), first);
      && W.Terminal(r.pool, s.pool)
      && Executable(r, packages, Initial(r, s.disk), second) && AllUndisturbed(r, second)
      && W.Terminal(r.pool, After(r, packages, Initial(r, s.disk), second).pool)
    requires group in W.Groups(r.pool.jobs)
    ensures var s := After(r, packages, Initial(r, disk), first);
      var stats := After(r, packages, Initial(r, s.disk), second).pool.stats;
      group in stats && stats[group] == W.GroupStats(0, W.Total(r.pool.jobs, W.InGroup(group)), 0)
  {
    InitialFacts(r, packages, disk);
    FilledCall(r, packages, Initial(r, disk), first);
    var filled := After(r, packages, Initial(r, disk), first).disk;
    InitialFacts(r, packages, filled);
    WarmCounters(r, packages, Initial(r, filled), second, group);
  }

  lemma {:induction false} WarmCounters(r: Run, packages: set<K.Package>, s: State, steps: seq<Step>, group: string)
    requires Invariant(r, packages, s) && Uncounted(s) && r.pool.cached && OneHashPerFile(r)
    requires Warm(r, s.disk) && NoneMissed(s) && Executable(r, packages, s, steps) && AllUndisturbed(r, steps)
    requires W.Terminal(r.pool, After(r, packages, s, steps).pool) && group in W.Groups(r.pool.jobs)
    ensures var stats := After(r, packages, s, steps).pool.stats;
      group in stats && stats[group] == W.GroupStats(0, W.Total(r.pool.jobs, W.InGroup(group)), 0)
  {
    WarmRun(r, packages, s, steps, group);
    AllCounted(r, packages, s, steps);
    RunKeepsInvariant(r, packages, s, steps);
    W.CompleteAtTermination(r.pool, After(r, packages, s, steps).pool);
    StatsKeys(r, packages, After(r, packages, s, steps));
  }
}
