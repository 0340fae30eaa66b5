/** The worker pool that runs package-scoped checks: a feeder, `size` workers and a collector
    that talk over an unbuffered job channel and a result channel of capacity `size`.

    One step is one atomic action of one goroutine. A run is any sequence of enabled steps,
    so every interleaving of the goroutines is covered. */
module WorkerPool {
  import opened Ordering

  datatype Job = Job(group: string, package: nat)

  /** The fixed inputs of one call. `cached` says whether a cache was configured. */
  datatype Pool = Pool(jobs: seq<Job>, size: nat, cached: bool) {
    predicate Valid() { 1 <= size <= |jobs| }
  }

  function PoolSize(processors: int, jobs: nat): (n: nat)
    requires jobs > 0
    ensures processors < 1 ==> n == 1
    ensures 1 <= processors <= jobs ==> n == processors
    ensures processors > jobs ==> n == jobs
  {
    var atLeastOne := if processors < 1 then 1 else processors;
    if atLeastOne > jobs then jobs else atLeastOne
  }

  /** Where a worker goroutine stands in its loop. */
  datatype Worker =
    | Idle                          // waiting to receive a job
    | Executing(job: nat)           // has a job, has not recorded its execution yet
    | Sending(job: nat)             // recorded the execution, about to send the findings
    | Closing                       // saw the job channel closed, about to send its done marker
    | Exited

  datatype Message = Findings(worker: nat, job: nat) | Done(worker: nat)

  datatype GroupStats = GroupStats(executions: nat, cacheHits: nat, cacheMisses: nat)

  datatype State = State(
    fed: nat,                       // jobs handed out so far, in order
    closed: bool,                   // the job channel is closed
    workers: seq<Worker>,
    channel: seq<Message>,          // the result channel, oldest message first
    collected: seq<nat>,            // jobs whose findings the collector appended
    finished: nat,                  // done markers seen by the collector
    stats: map<string, GroupStats>)

  datatype Step =
    | Hand(worker: nat)             // feeder and idle worker meet on the unbuffered channel
    | Close
    | SeeClosed(worker: nat)
    | Execute(worker: nat, hit: bool)
    | Send(worker: nat)
    | SendDone(worker: nat)
    | Receive

  function Initial(p: Pool): State {
    State(0, false, seq(p.size, i => Idle), [], [], 0,
          map g | g in Groups(p.jobs) :: GroupStats(0, 0, 0))
  }

  function Groups(jobs: seq<Job>): set<string> { set j | j in jobs :: j.group }

  /** runStats.execution for a registered group. */
  function Recorded(stats: map<string, GroupStats>, group: string, hit: bool, cached: bool): map<string, GroupStats> {
    if group !in stats then stats
    else
      var e := stats[group];
      var counted := if !cached then e
                     else if hit then e.(cacheHits := e.cacheHits + 1)
                     else e.(cacheMisses := e.cacheMisses + 1);
      stats[group := if hit then counted else counted.(executions := counted.executions + 1)]
  }

  predicate Enabled(p: Pool, s: State, step: Step) {
    match step
    case Hand(w) => w < |s.workers| && s.workers[w].Idle? && s.fed < |p.jobs|
    case Close => s.fed == |p.jobs| && !s.closed
    case SeeClosed(w) => w < |s.workers| && s.workers[w].Idle? && s.closed
    case Execute(w, hit) => w < |s.workers| && s.workers[w].Executing? && (hit ==> p.cached)
    case Send(w) => w < |s.workers| && s.workers[w].Sending? && |s.channel| < p.size
    case SendDone(w) => w < |s.workers| && s.workers[w].Closing? && |s.channel| < p.size
    case Receive => s.finished < p.size && s.channel != []
  }

  function Apply(p: Pool, s: State, step: Step): State
    requires Enabled(p, s, step)
  {
    match step
    case Hand(w) => s.(fed := s.fed + 1, workers := s.workers[w := Executing(s.fed)])
    case Close => s.(closed := true)
    case SeeClosed(w) => s.(workers := s.workers[w := Closing])
    case Execute(w, hit) =>
      var job := s.workers[w].job;
      s.(workers := s.workers[w := Sending(job)],
         stats := if job < |p.jobs| then Recorded(s.stats, p.jobs[job].group, hit, p.cached) else s.stats)
    case Send(w) =>
      s.(workers := s.workers[w := Idle], channel := s.channel + [Findings(w, s.workers[w].job)])
    case SendDone(w) => s.(workers := s.workers[w := Exited], channel := s.channel + [Done(w)])
    case Receive =>
      var rest := s.(channel := s.channel[1..]);
      match s.channel[0]
      case Done(_) => rest.(finished := s.finished + 1)
      case Findings(_, job) => rest.(collected := s.collected + [job])
  }

  ghost predicate CanMove(p: Pool, s: State) { exists step :: Enabled(p, s, step) }

  /** The collector loop has ended. */
  predicate Terminal(p: Pool, s: State) { s.finished == p.size }

  /** `steps` can be taken one after the other from `s`. */
  predicate Executable(p: Pool, s: State, steps: seq<Step>)
    decreases |steps|
  {
    steps == [] || (Enabled(p, s, steps[0]) && Executable(p, Apply(p, s, steps[0]), steps[1..]))
  }

  function After(p: Pool, s: State, steps: seq<Step>): State
    requires Executable(p, s, steps)
    decreases |steps|
  {
    if steps == [] then s else After(p, Apply(p, s, steps[0]), steps[1..])
  }

  // ---------- Sums over sequences ----------

  function Total<T>(s: seq<T>, f: T -> nat): nat {
    if s == [] then 0 else f(s[0]) + Total(s[1..], f)
  }

  lemma {:induction false} TotalConcat<T>(a: seq<T>, b: seq<T>, f: T -> nat)
    ensures Total(a + b, f) == Total(a, f) + Total(b, f)
  {
    if a == [] {
      assert a + b == b;
    } else {
      assert (a + b)[1..] == a[1..] + b;
      TotalConcat(a[1..], b, f);
    }
  }

  lemma TotalUpdate<T>(s: seq<T>, i: nat, x: T, f: T -> nat)
    requires i < |s|
    ensures Total(s[i := x], f) + f(s[i]) == Total(s, f) + f(x)
  {
    assert s == s[..i] + ([s[i]] + s[i + 1..]);
    assert s[i := x] == s[..i] + ([x] + s[i + 1..]);
    TotalConcat(s[..i], [s[i]] + s[i + 1..], f);
    TotalConcat(s[..i], [x] + s[i + 1..], f);
  }

  lemma {:induction false} TotalAtLeast<T>(s: seq<T>, i: nat, f: T -> nat)
    requires i < |s|
    ensures Total(s, f) >= f(s[i])
  {
    if i == 0 {
    } else {
      TotalAtLeast(s[1..], i - 1, f);
    }
  }

  lemma {:induction false} TotalZero<T>(s: seq<T>, f: T -> nat)
    requires forall x :: x in s ==> f(x) == 0
    ensures Total(s, f) == 0
  {
    if s == [] {
    } else {
      TotalZero(s[1..], f);
    }
  }

  // What is summed: one for each worker or message that ...
  function Holds(job: nat): Worker -> nat { (w: Worker) => if w == Executing(job) || w == Sending(job) then 1 else 0 }
  function Carries(job: nat): Message -> nat { (m: Message) => if m.Findings? && m.job == job then 1 else 0 }
  function Gone(): Worker -> nat { (w: Worker) => if w.Exited? then 1 else 0 }
  function Marker(): Message -> nat { (m: Message) => if m.Done? then 1 else 0 }
  function Unrecorded(jobs: seq<Job>, group: string): Worker -> nat {
    (w: Worker) => if w.Executing? && w.job < |jobs| && jobs[w.job].group == group then 1 else 0
  }
  function InGroup(group: string): Job -> nat { (j: Job) => if j.group == group then 1 else 0 }

  /** Actions a worker still has to take before it exits, its message's receipt included. */
  function Remaining(): Worker -> nat {
    (w: Worker) => match w
      case Idle => 3
      case Executing(_) => 6
      case Sending(_) => 5
      case Closing => 2
      case Exited => 0
  }

  /** The number of steps left, whatever the interleaving. */
  function Measure(p: Pool, s: State): int {
    4 * (|p.jobs| - s.fed) + (if s.closed then 0 else 1) + Total(s.workers, Remaining()) + |s.channel|
  }

  // ---------- The invariant ----------

  ghost predicate Shape(p: Pool, s: State) {
    && p.Valid()
    && |s.workers| == p.size
    && |s.channel| <= p.size
    && s.fed <= |p.jobs|
    && (s.closed ==> s.fed == |p.jobs|)
    && (forall w :: 0 <= w < |s.workers| && (s.workers[w].Closing? || s.workers[w].Exited?) ==> s.closed)
    && (forall w :: 0 <= w < |s.workers| && (s.workers[w].Executing? || s.workers[w].Sending?) ==>
      s.workers[w].job < |p.jobs|)
    && s.stats.Keys == Groups(p.jobs)
  }

  /** The places where a job is: collected, in the channel, with a worker. */
  ghost function Places(s: State, job: nat): nat {
    multiset(s.collected)[job] + Total(s.channel, Carries(job)) + Total(s.workers, Holds(job))
  }

  /** Every job handed out is in exactly one place: with a worker, in the channel, or collected. */
  ghost predicate Conserved(s: State) {
    forall job: nat :: Places(s, job) == if job < s.fed then 1 else 0
  }

  ghost predicate MarkersMatch(s: State) {
    s.finished + Total(s.channel, Marker()) == Total(s.workers, Gone())
  }

  /** The channel is first-in first-out, so a worker's findings precede its done marker. */
  ghost predicate FindingsFirst(s: State) {
    forall i :: 0 <= i < |s.channel| && s.channel[i].Findings? ==>
      var w := s.channel[i].worker;
      w < |s.workers| && (s.workers[w].Exited? ==> exists k :: i < k < |s.channel| && s.channel[k] == Done(w))
  }

  /** The counters of one group account for `done` of its jobs. */
  predicate Accounts(e: GroupStats, pending: nat, done: nat, cached: bool) {
    && e.executions + e.cacheHits + pending == done
    && if cached then e.cacheMisses == e.executions else e.cacheMisses == e.cacheHits == 0
  }

  ghost predicate StatsMatch(p: Pool, s: State) {
    s.fed <= |p.jobs| &&
    forall g :: g in s.stats ==>
      Accounts(s.stats[g], Total(s.workers, Unrecorded(p.jobs, g)), Total(p.jobs[..s.fed], InGroup(g)), p.cached)
  }

  ghost predicate Invariant(p: Pool, s: State) {
    Shape(p, s) && Conserved(s) && MarkersMatch(s) && FindingsFirst(s) && StatsMatch(p, s)
  }

  lemma InitialInvariant(p: Pool)
    requires p.Valid()
    ensures Invariant(p, Initial(p))
    ensures Measure(p, Initial(p)) == 4 * |p.jobs| + 3 * p.size + 1
  {
    var s := Initial(p);
    forall job: nat ensures Total(s.workers, Holds(job)) == 0 { TotalZero(s.workers, Holds(job)); }
    forall g | g in s.stats
      ensures Total(s.workers, Unrecorded(p.jobs, g)) == 0
    {
      TotalZero(s.workers, Unrecorded(p.jobs, g));
    }
    TotalZero(s.workers, Gone());
    IdleMeasure(p.size);
  }

  lemma {:induction false} IdleMeasure(n: nat)
    ensures Total(seq(n, i => Idle), Remaining()) == 3 * n
  {
    if n == 0 {
    } else {
      assert seq(n, i => Idle)[1..] == seq(n - 1, i => Idle);
      IdleMeasure(n - 1);
    }
  }

  // ---------- Every step keeps the invariant and uses up exactly one unit of the measure ----------

  lemma StepShape(p: Pool, s: State, step: Step)
    requires Shape(p, s) && Enabled(p, s, step)
    ensures Shape(p, Apply(p, s, step))
  {
  }

  lemma StepCollected(p: Pool, s: State, step: Step, job: nat)
    requires Enabled(p, s, step)
    ensures multiset(Apply(p, s, step).collected)[job] ==
      multiset(s.collected)[job] + if step.Receive? then Carries(job)(s.channel[0]) else 0
  {
    if step.Receive? && s.channel[0].Findings? {
      assert multiset(s.collected + [s.channel[0].job]) == multiset(s.collected) + multiset{s.channel[0].job};
    }
  }

  /** Only handing a job out brings it to a place, and every other step at most moves it. */
  lemma {:induction false} StepPlaces(p: Pool, s: State, step: Step, job: nat)
    requires Enabled(p, s, step)
    ensures Places(Apply(p, s, step), job) == Places(s, job) + if step.Hand? && job == s.fed then 1 else 0
  {
    StepCollected(p, s, step, job);
    StepChannel(p, s, step, Carries(job));
    StepWorkers(p, s, step, Holds(job));
  }

  lemma {:induction false} StepConservedJob(p: Pool, s: State, step: Step, job: nat)
    requires Shape(p, s) && Enabled(p, s, step)
    requires Places(s, job) == if job < s.fed then 1 else 0
    ensures Places(Apply(p, s, step), job) == if job < Apply(p, s, step).fed then 1 else 0
  {
    StepPlaces(p, s, step, job);
  }

  lemma {:induction false} StepConserved(p: Pool, s: State, step: Step)
    requires Shape(p, s) && Conserved(s) && Enabled(p, s, step)
    ensures Conserved(Apply(p, s, step))
  {
    forall job: nat ensures Places(Apply(p, s, step), job) == if job < Apply(p, s, step).fed then 1 else 0 {
      assert Places(s, job) == if job < s.fed then 1 else 0;
      StepConservedJob(p, s, step, job);
    }
  }

  lemma ChannelSnoc(channel: seq<Message>, m: Message, f: Message -> nat)
    ensures Total(channel + [m], f) == Total(channel, f) + f(m)
  {
    TotalConcat(channel, [m], f);
    assert Total([m], f) == f(m);
  }

  /** How a step changes a sum over the channel. */
  lemma StepChannel(p: Pool, s: State, step: Step, f: Message -> nat)
    requires Enabled(p, s, step)
    ensures var before, after := Total(s.channel, f), Total(Apply(p, s, step).channel, f);
      match step
      case Receive => after + f(s.channel[0]) == before
      case Send(w) => after == before + f(Findings(w, s.workers[w].job))
      case SendDone(w) => after == before + f(Done(w))
      case _ => after == before
  {
    if step.Send? {
      ChannelSnoc(s.channel, Findings(step.worker, s.workers[step.worker].job), f);
    } else if step.SendDone? {
      ChannelSnoc(s.channel, Done(step.worker), f);
    }
  }

  /** How a step changes a sum over the workers. */
  lemma StepWorkers(p: Pool, s: State, step: Step, f: Worker -> nat)
    requires Enabled(p, s, step)
    ensures var before, after := Total(s.workers, f), Total(Apply(p, s, step).workers, f);
      match step
      case Send(w) => after + f(s.workers[w]) == before + f(Idle)
      case SendDone(w) => after + f(Closing) == before + f(Exited)
      case Hand(w) => after + f(Idle) == before + f(Executing(s.fed))
      case SeeClosed(w) => after + f(Idle) == before + f(Closing)
      case Execute(w, _) => after + f(s.workers[w]) == before + f(Sending(s.workers[w].job))
      case _ => after == before
  {
    if step.Hand? || step.SeeClosed? || step.Execute? || step.Send? || step.SendDone? {
      TotalUpdate(s.workers, step.worker, Apply(p, s, step).workers[step.worker], f);
    }
  }

  lemma StepFindingsFirst(p: Pool, s: State, step: Step)
    requires Shape(p, s) && FindingsFirst(s) && Enabled(p, s, step)
    ensures FindingsFirst(Apply(p, s, step))
  {
    var t := Apply(p, s, step);
    forall i | 0 <= i < |t.channel| && t.channel[i].Findings?
      ensures t.channel[i].worker < |t.workers|
      ensures t.workers[t.channel[i].worker].Exited? ==>
        exists k :: i < k < |t.channel| && t.channel[k] == Done(t.channel[i].worker)
    {
      var w := t.channel[i].worker;
      if step.Receive? {
        assert t.channel[i] == s.channel[i + 1];
        if t.workers[w].Exited? {
          var k :| i + 1 < k < |s.channel| && s.channel[k] == Done(w);
          assert t.channel[k - 1] == Done(w);
        }
      } else if i < |s.channel| {
        assert t.channel[i] == s.channel[i];
        if t.workers[w].Exited? {
          if s.workers[w].Exited? {
            var k :| i < k < |s.channel| && s.channel[k] == Done(w);
            assert t.channel[k] == Done(w);
          } else {
            assert t.channel[|s.channel|] == Done(w);
          }
        }
      }
    }
  }

  lemma RecordedOne(stats: map<string, GroupStats>, group: string, hit: bool, cached: bool, g: string, pending: nat,
                    done: nat)
    requires g in stats && group in stats && (hit ==> cached)
    requires Accounts(stats[g], pending + if group == g then 1 else 0, done, cached)
    ensures g in Recorded(stats, group, hit, cached)
    ensures Accounts(Recorded(stats, group, hit, cached)[g], pending, done, cached)
  {
  }

  lemma HandedNext(jobs: seq<Job>, fed: nat, f: Job -> nat)
    requires fed < |jobs|
    ensures Total(jobs[..fed + 1], f) == Total(jobs[..fed], f) + f(jobs[fed])
  {
    assert jobs[..fed + 1] == jobs[..fed] + [jobs[fed]];
    TotalConcat(jobs[..fed], [jobs[fed]], f);
    assert Total([jobs[fed]], f) == f(jobs[fed]);
  }

  lemma {:induction false} StepStatsGroup(p: Pool, s: State, step: Step, g: string)
    requires Shape(p, s) && Enabled(p, s, step) && g in s.stats
    requires Accounts(s.stats[g], Total(s.workers, Unrecorded(p.jobs, g)), Total(p.jobs[..s.fed], InGroup(g)), p.cached)
    ensures var t := Apply(p, s, step);
      && g in t.stats && t.fed <= |p.jobs|
      && Accounts(t.stats[g], Total(t.workers, Unrecorded(p.jobs, g)), Total(p.jobs[..t.fed], InGroup(g)), p.cached)
  {
    var t := Apply(p, s, step);
    StepWorkers(p, s, step, Unrecorded(p.jobs, g));
    if step.Hand? {
      HandedNext(p.jobs, s.fed, InGroup(g));
    } else if step.Execute? {
      var group := p.jobs[s.workers[step.worker].job].group;
      RecordedOne(s.stats, group, step.hit, p.cached, g, Total(t.workers, Unrecorded(p.jobs, g)),
        Total(p.jobs[..s.fed], InGroup(g)));
    }
  }

  lemma {:induction false} StepStats(p: Pool, s: State, step: Step)
    requires Shape(p, s) && StatsMatch(p, s) && Enabled(p, s, step)
    ensures StatsMatch(p, Apply(p, s, step))
  {
    var t := Apply(p, s, step);
    StepShape(p, s, step);
    forall g | g in t.stats
      ensures Accounts(t.stats[g], Total(t.workers, Unrecorded(p.jobs, g)), Total(p.jobs[..t.fed], InGroup(g)),
        p.cached)
    {
      StepStatsGroup(p, s, step, g);
    }
  }

  lemma StepKeepsInvariant(p: Pool, s: State, step: Step)
    requires Invariant(p, s) && Enabled(p, s, step)
    ensures Invariant(p, Apply(p, s, step))
    ensures Measure(p, Apply(p, s, step)) == Measure(p, s) - 1
  {
    StepShape(p, s, step);
    StepConserved(p, s, step);
    StepFindingsFirst(p, s, step);
    StepStats(p, s, step);
    StepChannel(p, s, step, Marker());
    StepWorkers(p, s, step, Gone());
    StepWorkers(p, s, step, Remaining());
  }

  // ---------- What the counters count ----------

  /** The step records an execution for a job of the group: a hit, or one that ran the check. */
  predicate Records(p: Pool, s: State, step: Step, group: string, hit: bool) {
    && step.Execute? && step.hit == hit && step.worker < |s.workers| && s.workers[step.worker].Executing?
    && s.workers[step.worker].job < |p.jobs| && p.jobs[s.workers[step.worker].job].group == group
  }

  /** How many of the steps do so. */
  ghost function Taken(p: Pool, s: State, steps: seq<Step>, group: string, hit: bool): nat
    requires Executable(p, s, steps)
    decreases |steps|
  {
    if steps == [] then 0
    else (if Records(p, s, steps[0], group, hit) then 1 else 0)
         + Taken(p, Apply(p, s, steps[0]), steps[1..], group, hit)
  }

  /** One step: a hit under a cache counts as a hit, a run of the check as an execution, and under a cache as
      a miss too; other steps and other groups count nothing. */
  lemma StepCounts(p: Pool, s: State, step: Step, g: string)
    requires Shape(p, s) && Enabled(p, s, step) && g in s.stats
    ensures var t := Apply(p, s, step);
      && g in t.stats
      && t.stats[g].cacheHits == s.stats[g].cacheHits + (if Records(p, s, step, g, true) then 1 else 0)
      && t.stats[g].executions == s.stats[g].executions + (if Records(p, s, step, g, false) then 1 else 0)
      && t.stats[g].cacheMisses
         == s.stats[g].cacheMisses + (if p.cached && Records(p, s, step, g, false) then 1 else 0)
  {
  }

  lemma {:induction false} RunCounts(p: Pool, s: State, steps: seq<Step>, g: string)
    requires Invariant(p, s) && Executable(p, s, steps) && g in s.stats
    ensures var t := After(p, s, steps);
      && g in t.stats
      && t.stats[g].cacheHits == s.stats[g].cacheHits + Taken(p, s, steps, g, true)
      && t.stats[g].executions == s.stats[g].executions + Taken(p, s, steps, g, false)
      && t.stats[g].cacheMisses == s.stats[g].cacheMisses + if p.cached then Taken(p, s, steps, g, false) else 0
    decreases |steps|
  {
    if steps == [] {
    } else {
      StepCounts(p, s, steps[0], g);
      StepKeepsInvariant(p, s, steps[0]);
      RunCounts(p, Apply(p, s, steps[0]), steps[1..], g);
    }
  }

  /** The counters after a run from `s`, whose own counters are zero. */
  ghost predicate Counted(p: Pool, s: State, steps: seq<Step>, stats: map<string, GroupStats>)
    requires Executable(p, s, steps)
  {
    forall g :: g in stats ==>
      && stats[g].cacheHits == Taken(p, s, steps, g, true)
      && stats[g].executions == Taken(p, s, steps, g, false)
      && stats[g].cacheMisses == if p.cached then Taken(p, s, steps, g, false) else 0
  }

  ghost predicate Uncounted(s: State) { forall g :: g in s.stats ==> s.stats[g] == GroupStats(0, 0, 0) }

  lemma StatsKeys(p: Pool, s: State)
    requires Invariant(p, s)
    ensures s.stats.Keys == Groups(p.jobs)
  {
  }

  lemma {:induction false} AllCounted(p: Pool, s: State, steps: seq<Step>)
    requires Invariant(p, s) && Uncounted(s) && Executable(p, s, steps)
    ensures Counted(p, s, steps, After(p, s, steps).stats)
  {
    var t := After(p, s, steps);
    RunKeepsInvariant(p, s, steps);
    StatsKeys(p, s);
    StatsKeys(p, t);
    forall g | g in t.stats
      ensures t.stats[g].cacheHits == Taken(p, s, steps, g, true)
      ensures t.stats[g].executions == Taken(p, s, steps, g, false)
      ensures t.stats[g].cacheMisses == if p.cached then Taken(p, s, steps, g, false) else 0
    {
      RunCounts(p, s, steps, g);
    }
  }

  lemma {:induction false} RunOnward(p: Pool, s: State, steps: seq<Step>, next: Step)
    requires Executable(p, s, steps) && Enabled(p, After(p, s, steps), next)
    ensures Executable(p, s, steps + [next])
    ensures After(p, s, steps + [next]) == Apply(p, After(p, s, steps), next)
    decreases |steps|
  {
    if steps == [] {
      assert [next][1..] == [];
      assert steps + [next] == [next];
    } else {
      assert (steps + [next])[1..] == steps[1..] + [next];
      RunOnward(p, Apply(p, s, steps[0]), steps[1..], next);
    }
  }

  // ---------- Main results ----------

  /** No interleaving deadlocks: until the collector has seen every done marker, some step is enabled. */
  lemma Progress(p: Pool, s: State) returns (step: Step)
    requires Invariant(p, s) && !Terminal(p, s)
    ensures Enabled(p, s, step)
  {
    MarkersBound(s);
    if s.channel != [] {
      return Receive;
    }
    var w := SomeWorkerLeft(s.workers);
    match s.workers[w]
    case Executing(_) => return Execute(w, false);
    case Sending(_) => return Send(w);
    case Closing => return SendDone(w);
    case Exited => assert false;
    case Idle =>
      if s.closed { return SeeClosed(w); }
      if s.fed < |p.jobs| { return Hand(w); }
      return Close;
  }

  lemma MarkersBound(s: State)
    requires MarkersMatch(s)
    ensures s.finished <= |s.workers|
    ensures s.finished == |s.workers| ==> Total(s.channel, Marker()) == 0
  {
    GoneBound(s.workers);
  }

  lemma {:induction false} GoneBound(ws: seq<Worker>)
    ensures Total(ws, Gone()) <= |ws|
    ensures Total(ws, Gone()) == |ws| ==> forall i :: 0 <= i < |ws| ==> ws[i].Exited?
  {
    if ws == [] {
    } else {
      GoneBound(ws[1..]);
    }
  }

  lemma {:induction false} SomeWorkerLeft(ws: seq<Worker>) returns (w: nat)
    requires Total(ws, Gone()) < |ws|
    ensures w < |ws| && !ws[w].Exited?
  {
    if !ws[0].Exited? { return 0; }
    w := SomeWorkerLeft(ws[1..]);
    w := w + 1;
  }

  /** When the collector stops, nothing is left behind: every worker has exited, the channel is empty,
      each job was collected exactly once, and each group's executions and hits add up to its jobs. */
  lemma CompleteAtTermination(p: Pool, s: State)
    requires Invariant(p, s) && Terminal(p, s)
    ensures s.channel == []
    ensures forall w :: 0 <= w < |s.workers| ==> s.workers[w].Exited?
    ensures multiset(s.collected) == multiset(Indices(|p.jobs|))
    ensures forall j :: j in p.jobs ==> j.group in s.stats
    ensures forall g :: g in s.stats ==>
      s.stats[g].executions + s.stats[g].cacheHits == Total(p.jobs, InGroup(g))
  {
    MarkersBound(s);
    GoneBound(s.workers);
    if s.channel != [] {
      var last := |s.channel| - 1;
      TotalAtLeast(s.channel, last, Marker());
      assert false;
    }
    forall job: nat ensures multiset(s.collected)[job] == if job < |p.jobs| then 1 else 0 {
      assert Places(s, job) == if job < s.fed then 1 else 0;
      TotalZero(s.workers, Holds(job));
      assert Total(s.channel, Carries(job)) == 0;
    }
    IndicesOnce(|p.jobs|);
    assert p.jobs[..|p.jobs|] == p.jobs;
    assert s.workers[0].Exited?;
    forall g | g in s.stats ensures s.stats[g].executions + s.stats[g].cacheHits == Total(p.jobs, InGroup(g)) {
      TotalZero(s.workers, Unrecorded(p.jobs, g));
    }
  }

  function Indices(n: nat): seq<nat> { seq(n, i => i) }

  lemma {:induction false} IndicesOnce(n: nat)
    ensures forall k: nat :: multiset(Indices(n))[k] == if k < n then 1 else 0
  {
    if n == 0 {
    } else {
      IndicesOnce(n - 1);
      assert Indices(n) == Indices(n - 1) + [n - 1];
    }
  }

  /** A state that no step leads out of is complete, and then no unit of the measure is left. */
  lemma {:induction false} StuckIsComplete(p: Pool, s: State)
    requires Invariant(p, s)
    ensures Measure(p, s) >= 0
    ensures CanMove(p, s) <==> !Terminal(p, s)
    ensures Terminal(p, s) <==> Measure(p, s) == 0
    ensures Terminal(p, s) ==> s.channel == [] && multiset(s.collected) == multiset(Indices(|p.jobs|))
  {
    if Terminal(p, s) {
      CompleteAtTermination(p, s);
      TotalZero(s.workers, Remaining());
      assert s.workers[0].Exited?;
    } else {
      var step := Progress(p, s);
      StepKeepsInvariant(p, s, step);
      assert Measure(p, Apply(p, s, step)) >= 0;
    }
  }

  /** Every run of every interleaving: the invariant holds, the steps taken plus the steps left are
      always 4 per job, 3 per worker and 1 for the close, a run that cannot go on is complete, and the
      counters count the recorded hits and executions of each group. */
  lemma {:induction false} EveryRun(p: Pool, steps: seq<Step>)
    requires p.Valid()
    requires Executable(p, Initial(p), steps)
    ensures var s := After(p, Initial(p), steps);
      && Invariant(p, s)
      && |steps| + Measure(p, s) == 4 * |p.jobs| + 3 * p.size + 1
      && Measure(p, s) >= 0
      && (CanMove(p, s) <==> !Terminal(p, s))
      && (Terminal(p, s) <==> |steps| == 4 * |p.jobs| + 3 * p.size + 1)
      && (Terminal(p, s) ==> s.channel == [] && multiset(s.collected) == multiset(Indices(|p.jobs|)))
      && Counted(p, Initial(p), steps, s.stats)
  {
    InitialInvariant(p);
    AllCounted(p, Initial(p), steps);
    RunKeepsInvariant(p, Initial(p), steps);
    StuckIsComplete(p, After(p, Initial(p), steps));
  }

  lemma {:induction false} RunKeepsInvariant(p: Pool, s: State, steps: seq<Step>)
    requires Invariant(p, s) && Executable(p, s, steps)
    ensures Invariant(p, After(p, s, steps))
    ensures |steps| + Measure(p, After(p, s, steps)) == Measure(p, s)
    decreases |steps|
  {
    if steps == [] {
    } else {
      StepKeepsInvariant(p, s, steps[0]);
      RunKeepsInvariant(p, Apply(p, s, steps[0]), steps[1..]);
    }
  }

  /** The findings appended for a list of jobs, in that order. */
  function Collected<I>(order: seq<nat>, findings: nat -> seq<I>): seq<I> {
    if order == [] then [] else findings(order[0]) + Collected(order[1..], findings)
  }

  lemma {:induction false} CollectedConcat<I>(a: seq<nat>, b: seq<nat>, findings: nat -> seq<I>)
    ensures Collected(a + b, findings) == Collected(a, findings) + Collected(b, findings)
  {
    if a == [] {
      assert a + b == b;
    } else {
      assert (a + b)[1..] == a[1..] + b;
      CollectedConcat(a[1..], b, findings);
    }
  }

  lemma MultisetInsert<T>(a: seq<T>, x: seq<T>, b: seq<T>)
    ensures multiset(a + (x + b)) == multiset(a + b) + multiset(x)
  {
  }

  lemma {:induction false} CollectedWithout<I>(order: seq<nat>, k: nat, findings: nat -> seq<I>)
    requires k < |order|
    ensures multiset(Collected(order, findings)) ==
      multiset(Collected(Without(order, k), findings)) + multiset(findings(order[k]))
  {
    var before, one, after := order[..k], [order[k]], order[k + 1..];
    assert order == before + (one + after);
    CollectedConcat(before, one + after, findings);
    CollectedConcat(one, after, findings);
    CollectedConcat(before, after, findings);
    CollectedOne(order[k], findings);
    MultisetInsert(Collected(before, findings), findings(order[k]), Collected(after, findings));
  }

  lemma CollectedOne<I>(job: nat, findings: nat -> seq<I>)
    ensures Collected([job], findings) == findings(job)
  {
    assert findings(job) + Collected([], findings) == findings(job);
  }

  /** The order in which results arrive does not change which findings were collected. */
  lemma {:induction false} ArrivalOrderIrrelevant<I>(a: seq<nat>, b: seq<nat>, findings: nat -> seq<I>)
    requires multiset(a) == multiset(b)
    ensures multiset(Collected(a, findings)) == multiset(Collected(b, findings))
    decreases |a|
  {
    SameMultisetSameElements(a, b);
    if a == [] {
    } else {
      assert a[0] in b;
      var k :| 0 <= k < |b| && b[k] == a[0];
      WithoutMultiset(a, 0);
      WithoutMultiset(b, k);
      ArrivalOrderIrrelevant(Without(a, 0), Without(b, k), findings);
      CollectedWithout(a, 0, findings);
      CollectedWithout(b, k, findings);
    }
  }

  /** The collector's view: whatever the scheduler picks, the call returns, with exactly the findings
      of every job, and with statistics that count the hits and the executions of the run it took. */
  method ExecutePackageJobs<I>(p: Pool, findings: nat -> seq<I>, schedule: State -> Step)
    returns (all: seq<I>, stats: map<string, GroupStats>, ghost steps: seq<Step>)
    requires p.Valid()
    requires forall s :: CanMove(p, s) ==> Enabled(p, s, schedule(s))
    ensures multiset(all) == multiset(Collected(Indices(|p.jobs|), findings))
    ensures forall j :: j in p.jobs ==> j.group in stats
    ensures forall g :: g in stats ==> stats[g].executions + stats[g].cacheHits == Total(p.jobs, InGroup(g))
    ensures Executable(p, Initial(p), steps) && Terminal(p, After(p, Initial(p), steps))
    ensures Counted(p, Initial(p), steps, stats)
  {
    var s := Initial(p);
    steps := [];
    InitialInvariant(p);
    all := [];
    while s.finished < p.size
      invariant Invariant(p, s)
      invariant all == Collected(s.collected, findings)
      invariant Executable(p, Initial(p), steps) && After(p, Initial(p), steps) == s
      decreases Measure(p, s)
    {
      MarkersBound(s);
      ghost var possible := Progress(p, s);
      assert Enabled(p, s, possible) && CanMove(p, s);
      var step := schedule(s);
      StepKeepsInvariant(p, s, step);
      if step.Receive? && s.channel[0].Findings? {
        CollectedConcat(s.collected, [s.channel[0].job], findings);
        CollectedOne(s.channel[0].job, findings);
        all := all + findings(s.channel[0].job);
      }
      RunOnward(p, Initial(p), steps, step);
      s, steps := Apply(p, s, step), steps + [step];
    }
    MarkersBound(s);
    AllCounted(p, Initial(p), steps);
    CompleteAtTermination(p, s);
    ArrivalOrderIrrelevant(s.collected, Indices(|p.jobs|), findings);
    stats := s.stats;
  }
}
