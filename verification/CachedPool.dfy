/** The worker pool and the result cache together: every worker looks its job up, runs the check on a
    miss, stores the report and records the execution, each as a step of its own. Steps of different
    workers interleave freely, with one another and with what other runs do to the shared directory. */
module CachedPool {
  import opened Options
  import C = ResultCache
  import K = CacheKey
  import W = WorkerPool

  /** The fixed inputs of one call; a job names one of `packages`. */
  datatype Run = Run(pool: W.Pool, world: C.World, policy: string, packages: seq<K.Package>) {
    predicate Has(job: nat) { job < |pool.jobs| && pool.jobs[job].package < |packages| }

    function Group(job: nat): string
      requires Has(job)
    {
      pool.jobs[job].group
    }

    function Package(job: nat): K.Package
      requires Has(job)
    {
      packages[pool.jobs[job].package]
    }

    function Path(job: nat): string
      requires Has(job)
    {
      C.EntryPath(world, policy, Group(job), Package(job))
    }

    function Hash(job: nat): string
      requires Has(job)
    {
      K.PackageHash(world.h, Package(job))
    }

    /** What the check reports, before the root is stamped on it. */
    function Checked(job: nat): seq<C.Finding>
      requires Has(job)
    {
      C.Computed(world, policy, Group(job), Package(job))
    }

    /** What the job contributes when no cache is configured. */
    function Uncached(): nat -> seq<C.Finding> {
      (job: nat) => if Has(job) then C.UncachedPackage(world, policy, Group(job), Package(job)) else []
    }

    /** The packages of all jobs belong to `s`, and groups have plain names. */
    ghost predicate Valid(s: set<K.Package>) {
      && pool.Valid()
      && forall job: nat :: job < |pool.jobs| ==> Has(job) && Package(job) in s && C.PlainGroup(Group(job))
    }
  }

  /** How far a worker is with the job it executes. */
  datatype Phase =
    | Waiting                             // has no job to execute
    | Received                            // about to look the job up
    | Missing                             // not found, about to run the check
    | Reported(local: seq<C.Finding>)     // ran the check, about to store
    | Stored(local: seq<C.Finding>)       // about to record an execution
    | Found(local: seq<C.Finding>)        // found in the cache, about to record a hit

  datatype State = State(
    pool: W.State,
    phases: seq<Phase>,
    disk: C.Disk,
    stamped: map<nat, seq<C.Finding>>,    // what is sent, or will be, for each recorded job
    all: seq<C.Finding>)                  // what the collector appended

  datatype Step =
    | Move(step: W.Step)                  // any step of the pool but recording
    | Load(worker: nat)
    | Check(worker: nat)
    | Store(worker: nat, written: bool)   // the write may fail
    | Record(worker: nat)
    | Other(event: C.Event)               // something another run, or anyone, does to the directory

  function Initial(r: Run, disk: C.Disk): State {
    State(W.Initial(r.pool), seq(r.pool.size, i => Waiting), disk, map[], [])
  }

  /** Worker `w` executes a job and is in a phase that satisfies `p`. */
  predicate Executes(r: Run, s: State, w: nat, p: Phase -> bool) {
    && w < |s.pool.workers| && w < |s.phases|
    && s.pool.workers[w].Executing? && r.Has(s.pool.workers[w].job) && p(s.phases[w])
  }

  ghost predicate Enabled(r: Run, packages: set<K.Package>, s: State, step: Step) {
    |s.phases| == |s.pool.workers| &&
    match step
    case Move(move) => W.Enabled(r.pool, s.pool, move) && !move.Execute?
    case Load(w) => Executes(r, s, w, (p: Phase) => p.Received?)
    case Check(w) => Executes(r, s, w, (p: Phase) => p.Missing?)
    case Store(w, _) => Executes(r, s, w, (p: Phase) => p.Reported?)
    case Record(w) =>
      && Executes(r, s, w, (p: Phase) => p.Stored? || p.Found?)
      && W.Enabled(r.pool, s.pool, W.Execute(w, s.phases[w].Found?))
    case Other(event) => C.Admissible(packages, event)
  }

  function LookedUp(r: Run, disk: C.Disk, job: nat): Phase
    requires r.Has(job)
  {
    if !r.pool.cached then Missing
    else
      match C.Lookup(disk, r.Path(job), r.Hash(job))
      case Some(issues) => Found(C.Stamp(issues, r.Package(job).analysisRoot))
      case None => Missing
  }

  function AfterStore(r: Run, disk: C.Disk, job: nat, local: seq<C.Finding>, written: bool): C.Disk
    requires r.Has(job)
  {
    if r.pool.cached && written then disk[r.Path(job) := C.Entry(C.VERSION, r.Hash(job), C.Stamp(local, ""))] else disk
  }

  /** What receiving the oldest message appends. */
  function Arriving(s: State, move: W.Step): seq<C.Finding> {
    if move.Receive? && s.pool.channel != [] && s.pool.channel[0].Findings? && s.pool.channel[0].job in s.stamped
    then s.stamped[s.pool.channel[0].job] else []
  }

  ghost function Apply(r: Run, packages: set<K.Package>, s: State, step: Step): State
    requires Enabled(r, packages, s, step)
  {
    match step
    case Move(move) =>
      s.(pool := W.Apply(r.pool, s.pool, move),
         phases := if move.Hand? then s.phases[move.worker := Received] else s.phases,
         all := s.all + Arriving(s, move))
    case Load(w) => s.(phases := s.phases[w := LookedUp(r, s.disk, s.pool.workers[w].job)])
    case Check(w) => s.(phases := s.phases[w := Reported(r.Checked(s.pool.workers[w].job))])
    case Store(w, written) =>
      s.(phases := s.phases[w := Stored(s.phases[w].local)],
         disk := AfterStore(r, s.disk, s.pool.workers[w].job, s.phases[w].local, written))
    case Record(w) =>
      var job := s.pool.workers[w].job;
      s.(pool := W.Apply(r.pool, s.pool, W.Execute(w, s.phases[w].Found?)),
         phases := s.phases[w := Waiting],
         stamped := s.stamped[job := C.Stamp(s.phases[w].local, r.Package(job).analysisRoot)])
    case Other(event) => s.(disk := C.Step(r.world, s.disk, event))
  }

  ghost predicate Executable(r: Run, packages: set<K.Package>, s: State, steps: seq<Step>)
    decreases |steps|
  {
    steps == [] ||
      (Enabled(r, packages, s, steps[0]) && Executable(r, packages, Apply(r, packages, s, steps[0]), steps[1..]))
  }

  ghost function After(r: Run, packages: set<K.Package>, s: State, steps: seq<Step>): State
    requires Executable(r, packages, s, steps)
    decreases |steps|
  {
    if steps == [] then s else After(r, packages, Apply(r, packages, s, steps[0]), steps[1..])
  }

  /** The steps the call takes itself. */
  function Own(steps: seq<Step>): nat {
    if steps == [] then 0 else (if steps[0].Other? then 0 else 1) + Own(steps[1..])
  }

  // ---------- The invariant ----------

  /** A worker is waiting unless it executes a job, and holds nothing but that job's findings. */
  ghost predicate PhaseFits(r: Run, worker: W.Worker, phase: Phase) {
    && (phase.Waiting? <==> !worker.Executing?)
    && (worker.Executing? ==> r.Has(worker.job))
    && match phase
       case Reported(local) => local == r.Checked(worker.job)
       case Stored(local) => local == r.Checked(worker.job)
       case Found(local) => r.pool.cached && local == r.Uncached()(worker.job)
       case _ => true
  }

  ghost predicate PhasesFit(r: Run, s: State) {
    |s.phases| == |s.pool.workers| && forall w :: 0 <= w < |s.phases| ==> PhaseFits(r, s.pool.workers[w], s.phases[w])
  }

  /** What is stamped for a job are the findings it has without a cache. */
  ghost predicate StampedFit(r: Run, stamped: map<nat, seq<C.Finding>>) {
    forall job :: job in stamped ==> stamped[job] == r.Uncached()(job)
  }

  /** Every job past its recording has its findings stamped. */
  ghost predicate AllStamped(s: State) {
    && (forall w :: 0 <= w < |s.pool.workers| && s.pool.workers[w].Sending? ==> s.pool.workers[w].job in s.stamped)
    && (forall i :: 0 <= i < |s.pool.channel| && s.pool.channel[i].Findings? ==> s.pool.channel[i].job in s.stamped)
  }

  ghost predicate Invariant(r: Run, packages: set<K.Package>, s: State) {
    && r.Valid(packages) && C.Trusted(r.world, packages, s.disk)
    && W.Invariant(r.pool, s.pool)
    && PhasesFit(r, s) && StampedFit(r, s.stamped) && AllStamped(s)
    && s.all == W.Collected(s.pool.collected, r.Uncached())
  }

  /** The most steps a worker still takes before it records its job. */
  function Left(): Phase -> nat {
    (p: Phase) => match p
      case Received => 3
      case Missing => 2
      case Reported(_) => 1
      case _ => 0
  }

  /** A bound on the steps the call still takes. */
  function Measure(r: Run, s: State): int {
    W.Measure(r.pool, s.pool) + 3 * (|r.pool.jobs| - s.pool.fed) + W.Total(s.phases, Left())
  }

  lemma InitialInvariant(r: Run, packages: set<K.Package>, disk: C.Disk)
    requires r.Valid(packages) && C.Trusted(r.world, packages, disk)
    ensures Invariant(r, packages, Initial(r, disk))
    ensures Measure(r, Initial(r, disk)) == 7 * |r.pool.jobs| + 3 * r.pool.size + 1
  {
    W.InitialInvariant(r.pool);
    W.TotalZero(Initial(r, disk).phases, Left());
  }

  // ---------- Every step keeps it ----------

  lemma MovePhases(r: Run, packages: set<K.Package>, s: State, move: W.Step)
    requires Invariant(r, packages, s) && Enabled(r, packages, s, Move(move))
    ensures PhasesFit(r, Apply(r, packages, s, Move(move)))
  {
    W.StepShape(r.pool, s.pool, move);
  }

  lemma MoveStamped(r: Run, packages: set<K.Package>, s: State, move: W.Step)
    requires Invariant(r, packages, s) && Enabled(r, packages, s, Move(move))
    ensures AllStamped(Apply(r, packages, s, Move(move)))
  {
  }

  lemma {:induction false} MoveCollects(r: Run, packages: set<K.Package>, s: State, move: W.Step)
    requires Invariant(r, packages, s) && Enabled(r, packages, s, Move(move))
    ensures var t := Apply(r, packages, s, Move(move)); t.all == W.Collected(t.pool.collected, r.Uncached())
  {
    if move.Receive? && s.pool.channel[0].Findings? {
      var job := s.pool.channel[0].job;
      W.CollectedConcat(s.pool.collected, [job], r.Uncached());
      W.CollectedOne(job, r.Uncached());
    } else {
      assert s.all + [] == s.all;
    }
  }

  lemma {:induction false} MoveMeasure(r: Run, packages: set<K.Package>, s: State, move: W.Step)
    requires Invariant(r, packages, s) && Enabled(r, packages, s, Move(move))
    ensures Measure(r, Apply(r, packages, s, Move(move))) == Measure(r, s) - 1
  {
    W.StepKeepsInvariant(r.pool, s.pool, move);
    if move.Hand? {
      W.TotalUpdate(s.phases, move.worker, Received, Left());
    }
  }

  lemma {:induction false} MoveKeeps(r: Run, packages: set<K.Package>, s: State, move: W.Step)
    requires Invariant(r, packages, s) && Enabled(r, packages, s, Move(move))
    ensures Invariant(r, packages, Apply(r, packages, s, Move(move)))
    ensures Measure(r, Apply(r, packages, s, Move(move))) == Measure(r, s) - 1
  {
    W.StepKeepsInvariant(r.pool, s.pool, move);
    MovePhases(r, packages, s, move);
    MoveStamped(r, packages, s, move);
    MoveCollects(r, packages, s, move);
    MoveMeasure(r, packages, s, move);
  }

  /** On a trusted directory a look-up finds the job's own findings or nothing. */
  lemma LookUpFits(r: Run, packages: set<K.Package>, disk: C.Disk, job: nat)
    requires r.Valid(packages) && C.Trusted(r.world, packages, disk) && r.Has(job)
    ensures PhaseFits(r, W.Executing(job), LookedUp(r, disk, job))
  {
    assert C.SoundFor(r.world, disk, r.policy, r.Group(job), r.Package(job));
  }

  /** A finished write leaves the directory trusted, whoever reads it next. */
  lemma StoreKeepsTrust(r: Run, packages: set<K.Package>, disk: C.Disk, job: nat, written: bool)
    requires r.Valid(packages) && C.Trusted(r.world, packages, disk) && r.Has(job)
    ensures C.Trusted(r.world, packages, AfterStore(r, disk, job, r.Checked(job), written))
  {
    C.RunTrusted(r.world, packages, disk, r.policy, r.Group(job), r.Package(job));
  }

  lemma {:induction false} LoadKeeps(r: Run, packages: set<K.Package>, s: State, w: nat)
    requires Invariant(r, packages, s) && Enabled(r, packages, s, Load(w))
    ensures Invariant(r, packages, Apply(r, packages, s, Load(w)))
    ensures Measure(r, Apply(r, packages, s, Load(w))) < Measure(r, s)
  {
    var next := LookedUp(r, s.disk, s.pool.workers[w].job);
    LookUpFits(r, packages, s.disk, s.pool.workers[w].job);
    W.TotalUpdate(s.phases, w, next, Left());
  }

  lemma {:induction false} CheckKeeps(r: Run, packages: set<K.Package>, s: State, w: nat)
    requires Invariant(r, packages, s) && Enabled(r, packages, s, Check(w))
    ensures Invariant(r, packages, Apply(r, packages, s, Check(w)))
    ensures Measure(r, Apply(r, packages, s, Check(w))) < Measure(r, s)
  {
    W.TotalUpdate(s.phases, w, Reported(r.Checked(s.pool.workers[w].job)), Left());
  }

  lemma {:induction false} StoreKeeps(r: Run, packages: set<K.Package>, s: State, w: nat, written: bool)
    requires Invariant(r, packages, s) && Enabled(r, packages, s, Store(w, written))
    ensures Invariant(r, packages, Apply(r, packages, s, Store(w, written)))
    ensures Measure(r, Apply(r, packages, s, Store(w, written))) < Measure(r, s)
  {
    assert PhaseFits(r, s.pool.workers[w], s.phases[w]);
    StoreKeepsTrust(r, packages, s.disk, s.pool.workers[w].job, written);
    W.TotalUpdate(s.phases, w, Stored(s.phases[w].local), Left());
  }

  /** Whether found or computed, what a worker stamps are the findings of its job without a cache. */
  lemma StampFits(r: Run, worker: W.Worker, phase: Phase)
    requires PhaseFits(r, worker, phase) && (phase.Stored? || phase.Found?)
    ensures C.Stamp(phase.local, r.Package(worker.job).analysisRoot) == r.Uncached()(worker.job)
  {
    if phase.Found? {
      C.RestampSame(Some(r.Checked(worker.job)), r.Package(worker.job).analysisRoot);
    }
  }

  lemma {:induction false} RecordKeeps(r: Run, packages: set<K.Package>, s: State, w: nat)
    requires Invariant(r, packages, s) && Enabled(r, packages, s, Record(w))
    ensures Invariant(r, packages, Apply(r, packages, s, Record(w)))
    ensures Measure(r, Apply(r, packages, s, Record(w))) < Measure(r, s)
  {
    W.StepKeepsInvariant(r.pool, s.pool, W.Execute(w, s.phases[w].Found?));
    StampFits(r, s.pool.workers[w], s.phases[w]);
    W.TotalUpdate(s.phases, w, Waiting, Left());
  }

  lemma StepKeepsInvariant(r: Run, packages: set<K.Package>, s: State, step: Step)
    requires Invariant(r, packages, s) && Enabled(r, packages, s, step)
    ensures Invariant(r, packages, Apply(r, packages, s, step))
    ensures Measure(r, Apply(r, packages, s, step)) <= Measure(r, s) - if step.Other? then 0 else 1
  {
    match step
    case Move(move) => MoveKeeps(r, packages, s, move);
    case Load(w) => LoadKeeps(r, packages, s, w);
    case Check(w) => CheckKeeps(r, packages, s, w);
    case Store(w, written) => StoreKeeps(r, packages, s, w, written);
    case Record(w) => RecordKeeps(r, packages, s, w);
    case Other(event) => C.StepKeepsSound(r.world, packages, s.disk, event);
  }

  /** What a job contributes: the findings of its group's check on its package, each under the package's root. */
  lemma JobReport(r: Run, job: nat, i: nat)
    requires r.Has(job)
    requires var package := r.packages[r.pool.jobs[job].package];
      i < |r.world.findings(r.policy, r.pool.jobs[job].group, K.MaterialOf(r.world.h, package), package.analysisRoot)|
    ensures var package := r.packages[r.pool.jobs[job].package];
      var found :=
        r.world.findings(r.policy, r.pool.jobs[job].group, K.MaterialOf(r.world.h, package), package.analysisRoot);
      |r.Uncached()(job)| == |found| &&
      r.Uncached()(job)[i] == C.Finding(found[i].filename, found[i].text, package.analysisRoot)
  {
  }

  // ---------- What the counters count ----------

  /** The step records a job of the group, found in the cache or checked. */
  ghost predicate Records(r: Run, s: State, step: Step, group: string, found: bool) {
    && step.Record? && Executes(r, s, step.worker, (p: Phase) => if found then p.Found? else p.Stored?)
    && r.Group(s.pool.workers[step.worker].job) == group
  }

  ghost function Taken(r: Run, packages: set<K.Package>, s: State, steps: seq<Step>, group: string, found: bool): nat
    requires Executable(r, packages, s, steps)
    decreases |steps|
  {
    if steps == [] then 0
    else (if Records(r, s, steps[0], group, found) then 1 else 0)
         + Taken(r, packages, Apply(r, packages, s, steps[0]), steps[1..], group, found)
  }

  lemma StepCounts(r: Run, packages: set<K.Package>, s: State, step: Step, g: string)
    requires Invariant(r, packages, s) && Enabled(r, packages, s, step) && g in s.pool.stats
    ensures var t := Apply(r, packages, s, step).pool;
      && g in t.stats
      && t.stats[g].cacheHits == s.pool.stats[g].cacheHits + (if Records(r, s, step, g, true) then 1 else 0)
      && t.stats[g].executions == s.pool.stats[g].executions + (if Records(r, s, step, g, false) then 1 else 0)
  {
    if step.Move? {
      W.StepCounts(r.pool, s.pool, step.step, g);
    } else if step.Record? {
      W.StepCounts(r.pool, s.pool, W.Execute(step.worker, s.phases[step.worker].Found?), g);
    }
  }

  /** The hits of a group are its jobs recorded from the cache, its executions those recorded after a check. */
  lemma {:induction false} RunCounts(r: Run, packages: set<K.Package>, s: State, steps: seq<Step>, g: string)
    requires Invariant(r, packages, s) && Executable(r, packages, s, steps) && g in s.pool.stats
    ensures var t := After(r, packages, s, steps).pool;
      && g in t.stats
      && t.stats[g].cacheHits == s.pool.stats[g].cacheHits + Taken(r, packages, s, steps, g, true)
      && t.stats[g].executions == s.pool.stats[g].executions + Taken(r, packages, s, steps, g, false)
    decreases |steps|
  {
    if steps == [] {
    } else {
      StepCounts(r, packages, s, steps[0], g);
      StepKeepsInvariant(r, packages, s, steps[0]);
      RunCounts(r, packages, Apply(r, packages, s, steps[0]), steps[1..], g);
    }
  }

  /** The counters of a run from `s`, whose own counters are zero. */
  ghost predicate Counted(r: Run, packages: set<K.Package>, s: State, steps: seq<Step>,
                          stats: map<string, W.GroupStats>)
    requires Executable(r, packages, s, steps)
  {
    forall g :: g in stats ==>
      && stats[g].cacheHits == Taken(r, packages, s, steps, g, true)
      && stats[g].executions == Taken(r, packages, s, steps, g, false)
      && stats[g].cacheMisses == if r.pool.cached then stats[g].executions else 0
  }

  ghost predicate Uncounted(s: State) {
    forall g :: g in s.pool.stats ==> s.pool.stats[g] == W.GroupStats(0, 0, 0)
  }

  lemma StatsKeys(r: Run, packages: set<K.Package>, s: State)
    requires Invariant(r, packages, s)
    ensures s.pool.stats.Keys == W.Groups(r.pool.jobs)
    ensures forall g :: g in s.pool.stats ==>
      s.pool.stats[g].cacheMisses == if r.pool.cached then s.pool.stats[g].executions else 0
  {
  }

  lemma {:induction false} AllCounted(r: Run, packages: set<K.Package>, s: State, steps: seq<Step>)
    requires Invariant(r, packages, s) && Uncounted(s) && Executable(r, packages, s, steps)
    ensures Counted(r, packages, s, steps, After(r, packages, s, steps).pool.stats)
  {
    var t := After(r, packages, s, steps);
    RunKeepsInvariant(r, packages, s, steps);
    StatsKeys(r, packages, t);
    forall g | g in t.pool.stats
      ensures t.pool.stats[g].cacheHits == Taken(r, packages, s, steps, g, true)
      ensures t.pool.stats[g].executions == Taken(r, packages, s, steps, g, false)
    {
      RunCounts(r, packages, s, steps, g);
    }
  }

  // ---------- Main results ----------

  /** The call never waits for another run: until the collector is done, it can take a step itself. */
  lemma Progress(r: Run, packages: set<K.Package>, s: State) returns (step: Step)
    requires Invariant(r, packages, s) && !W.Terminal(r.pool, s.pool)
    ensures Enabled(r, packages, s, step) && !step.Other?
  {
    var move := W.Progress(r.pool, s.pool);
    if !move.Execute? {
      return Move(move);
    }
    var w := move.worker;
    assert PhaseFits(r, s.pool.workers[w], s.phases[w]);
    match s.phases[w]
    case Received => return Load(w);
    case Missing => return Check(w);
    case Reported(_) => return Store(w, true);
    case Stored(_) => return Record(w);
    case Found(_) => return Record(w);
    case Waiting => assert false;
  }

  lemma {:induction false} RunKeepsInvariant(r: Run, packages: set<K.Package>, s: State, steps: seq<Step>)
    requires Invariant(r, packages, s) && Executable(r, packages, s, steps)
    ensures Invariant(r, packages, After(r, packages, s, steps))
    ensures Own(steps) + Measure(r, After(r, packages, s, steps)) <= Measure(r, s)
    decreases |steps|
  {
    if steps == [] {
    } else {
      StepKeepsInvariant(r, packages, s, steps[0]);
      RunKeepsInvariant(r, packages, Apply(r, packages, s, steps[0]), steps[1..]);
    }
  }

  /** Whatever history the directory has, and however the workers of the call interleave with one another
      and with the writes of other runs: the call takes at most seven steps per job, three per worker and
      one, cannot get stuck before the collector is done, and then has collected exactly the findings
      that a call without a cache collects. The directory stays trusted throughout, and each group counts
      as hits the jobs it recorded from the cache and as executions those it recorded after a check. */
  lemma {:induction false} EveryCachedRun(r: Run, packages: set<K.Package>, history: seq<C.Event>, steps: seq<Step>)
    requires r.Valid(packages) && r.world.Valid() && C.AllClean(r.world.h, packages) && C.RootBlind(r.world, packages)
    requires C.History(packages, history)
    requires Executable(r, packages, Initial(r, C.Replay(r.world, history)), steps)
    ensures var s := After(r, packages, Initial(r, C.Replay(r.world, history)), steps);
      && Own(steps) <= 7 * |r.pool.jobs| + 3 * r.pool.size + 1
      && C.Trusted(r.world, packages, s.disk)
      && (!W.Terminal(r.pool, s.pool) ==> exists step :: Enabled(r, packages, s, step) && !step.Other?)
      && (W.Terminal(r.pool, s.pool) ==>
            multiset(s.all) == multiset(W.Collected(W.Indices(|r.pool.jobs|), r.Uncached())))
      && Counted(r, packages, Initial(r, C.Replay(r.world, history)), steps, s.pool.stats)
  {
    var disk := C.Replay(r.world, history);
    C.HistorySound(r.world, packages, history);
    InitialInvariant(r, packages, disk);
    RunKeepsInvariant(r, packages, Initial(r, disk), steps);
    var s := After(r, packages, Initial(r, disk), steps);
    AllCounted(r, packages, Initial(r, disk), steps);
    if W.Terminal(r.pool, s.pool) {
      W.CompleteAtTermination(r.pool, s.pool);
      W.ArrivalOrderIrrelevant(s.pool.collected, W.Indices(|r.pool.jobs|), r.Uncached());
    } else {
      var step := Progress(r, packages, s);
    }
  }
}
