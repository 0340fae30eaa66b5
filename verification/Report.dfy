/** From a cached run to the report: package findings collected by the pool, program findings group by
    group, roots, the selection of findings, subjects and identities, and their disambiguation. */
module Report {
  import opened Ordering
  import C = ResultCache
  import I = Identity
  import K = CacheKey
  import P = CachedPool
  import W = WorkerPool

  // ---------- Program-scoped groups ----------

  /** What happens at one program group: writes of other runs before its look-up, and whether its own
      write succeeds. */
  datatype Turn = Turn(foreign: seq<C.Event>, written: bool)

  ghost function Foreign(w: C.World, disk: C.Disk, events: seq<C.Event>): C.Disk
    decreases |events|
  {
    if events == [] then disk else Foreign(w, C.Step(w, disk, events[0]), events[1..])
  }

  /** The directory after a group: unchanged on a hit or a failed write. */
  ghost function AfterGroup(r: P.Run, disk: C.Disk, group: string, written: bool): C.Disk {
    var path, hash := C.ProgramPath(r.world, r.policy, group), C.ProgramHash(r.world.h, r.packages);
    if C.Lookup(disk, path, hash).Some? || !written then disk
    else C.Step(r.world, disk, C.StoreProgram(r.policy, group, r.packages))
  }

  /** The findings of the program groups in plan order, on a directory that others write to. */
  ghost function ProgramFindings(r: P.Run, groups: seq<string>, disk: C.Disk, turns: seq<Turn>): seq<C.Finding>
    requires |turns| == |groups|
  {
    if groups == [] then []
    else
      var now := Foreign(r.world, disk, turns[0].foreign);
      C.CachedProgram(r.world, now, r.policy, groups[0], r.packages)
      + ProgramFindings(r, groups[1..], AfterGroup(r, now, groups[0], turns[0].written), turns[1..])
  }

  ghost function UncachedProgramFindings(r: P.Run, groups: seq<string>): seq<C.Finding> {
    if groups == [] then []
    else C.UncachedProgram(r.world, r.policy, groups[0], r.packages) + UncachedProgramFindings(r, groups[1..])
  }

  ghost predicate Admitted(packages: set<K.Package>, turns: seq<Turn>) {
    forall k :: 0 <= k < |turns| ==> C.History(packages, turns[k].foreign)
  }

  lemma {:induction false} ForeignTrusted(w: C.World, packages: set<K.Package>, disk: C.Disk, events: seq<C.Event>)
    requires C.Trusted(w, packages, disk) && C.History(packages, events)
    ensures C.Trusted(w, packages, Foreign(w, disk, events))
    decreases |events|
  {
    if events == [] {
    } else {
      C.StepKeepsSound(w, packages, disk, events[0]);
      ForeignTrusted(w, packages, C.Step(w, disk, events[0]), events[1..]);
    }
  }

  /** On a trusted directory the program groups report what they report without a cache. */
  lemma {:induction false} ProgramsUncached(r: P.Run, packages: set<K.Package>, groups: seq<string>, disk: C.Disk,
                                            turns: seq<Turn>)
    requires C.Trusted(r.world, packages, disk) && C.Within(r.packages, packages)
    requires |turns| == |groups| && Admitted(packages, turns)
    ensures ProgramFindings(r, groups, disk, turns) == UncachedProgramFindings(r, groups)
    decreases |groups|
  {
    if groups == [] {
    } else {
      var now := Foreign(r.world, disk, turns[0].foreign);
      ForeignTrusted(r.world, packages, disk, turns[0].foreign);
      C.RunTrustedProgram(r.world, packages, now, r.policy, groups[0], r.packages);
      ProgramsUncached(r, packages, groups[1..], AfterGroup(r, now, groups[0], turns[0].written), turns[1..]);
    }
  }

  /** Groups are reported one after the other, in plan order. */
  lemma {:induction false} GroupsInOrder(r: P.Run, groups: seq<string>, last: string)
    ensures UncachedProgramFindings(r, groups + [last])
      == UncachedProgramFindings(r, groups) + C.UncachedProgram(r.world, r.policy, last, r.packages)
    ensures UncachedProgramFindings(r, []) == []
  {
    if groups == [] {
      assert [last][1..] == [] && groups + [last] == [last];
      assert UncachedProgramFindings(r, [last]) == C.UncachedProgram(r.world, r.policy, last, r.packages) + [];
    } else {
      assert (groups + [last])[1..] == groups[1..] + [last];
      GroupsInOrder(r, groups[1..], last);
      var first := C.UncachedProgram(r.world, r.policy, groups[0], r.packages);
      var rest := UncachedProgramFindings(r, groups[1..]);
      assert (first + rest) + C.UncachedProgram(r.world, r.policy, last, r.packages)
        == first + (rest + C.UncachedProgram(r.world, r.policy, last, r.packages));
    }
  }

  /** A group that was found, or whose write succeeded, is found by the next look-up, and the look-ups of other
      groups, as of anything else, find what they found before. */
  lemma GroupCached(r: P.Run, disk: C.Disk, group: string, written: bool, path: string, hash: string)
    requires r.world.Valid()
    ensures var here, key := C.ProgramPath(r.world, r.policy, group), C.ProgramHash(r.world.h, r.packages);
      && (C.Lookup(AfterGroup(r, disk, group, written), here, key).Some? <==>
            written || C.Lookup(disk, here, key).Some?)
      && (path != here ==> C.Lookup(AfterGroup(r, disk, group, written), path, hash) == C.Lookup(disk, path, hash))
      && (C.Lookup(disk, here, key).Some? ==> AfterGroup(r, disk, group, written) == disk)
  {
  }

  // ---------- Selecting, completing and disambiguating ----------

  /** How a finding reads as one of the report, which findings the analysis mode and the suppressions
      leave, the package a finding belongs to, and what identities depend on. */
  datatype View = View(
    env: I.Environment,
    issue: C.Finding -> I.Issue,
    kept: I.Issue -> bool,
    packageOf: I.Issue -> string)

  function Filter(s: seq<I.Issue>, kept: I.Issue -> bool): seq<I.Issue> {
    if s == [] then []
    else Filter(s[..|s| - 1], kept) + if kept(s[|s| - 1]) then [s[|s| - 1]] else []
  }

  function Stamped(root: string): C.Finding -> C.Finding {
    (x: C.Finding) => if x.analysisRoot == "" then x.(analysisRoot := root) else x
  }

  ghost function Complete(v: View): I.Issue -> I.Issue { (x: I.Issue) => I.Completed(v.env, x, v.packageOf(x)) }

  /** The findings that reach the report, with subject and identity, in the order of `raw`. */
  ghost function Selected(v: View, raw: seq<C.Finding>, root: string): seq<I.Issue> {
    Map(Complete(v), Filter(Map(v.issue, Map(Stamped(root), raw)), v.kept))
  }

  /** Sorting leaves the order of equal findings open: `report` comes from some arrangement of the findings. */
  ghost predicate Reports(v: View, raw: seq<C.Finding>, root: string, report: seq<I.Issue>) {
    exists arranged :: multiset(arranged) == multiset(Selected(v, raw, root)) &&
      report == I.Disambiguated(v.env, arranged)
  }

  /** Finding by finding: its root is completed, and if it is kept it appears with its subject and identity. */
  lemma SelectedNext(v: View, raw: seq<C.Finding>, next: C.Finding, root: string)
    ensures Selected(v, [], root) == []
    ensures var x := v.issue(C.Finding(next.filename, next.text,
        if next.analysisRoot == "" then root else next.analysisRoot));
      Selected(v, raw + [next], root)
        == Selected(v, raw, root) + if v.kept(x) then [I.Completed(v.env, x, v.packageOf(x))] else []
  {
    MapSnoc(Stamped(root), raw, next);
    MapSnoc(v.issue, Map(Stamped(root), raw), Stamped(root)(next));
    var all, x := Map(v.issue, Map(Stamped(root), raw)), v.issue(Stamped(root)(next));
    assert (all + [x])[..|all|] == all;
    if v.kept(x) { MapSnoc(Complete(v), Filter(all, v.kept), x); }
  }

  lemma MapSnoc<S, T>(f: S -> T, s: seq<S>, x: S)
    ensures Map(f, s + [x]) == Map(f, s) + [f(x)]
  {
  }

  lemma {:induction false} FilterCount(s: seq<I.Issue>, kept: I.Issue -> bool, x: I.Issue)
    ensures multiset(Filter(s, kept))[x] == if kept(x) then multiset(s)[x] else 0
  {
    if s == [] {
    } else {
      var init, last := s[..|s| - 1], s[|s| - 1];
      FilterCount(init, kept, x);
      assert s == init + [last];
    }
  }

  lemma {:induction false} SelectedMultiset(v: View, a: seq<C.Finding>, b: seq<C.Finding>, root: string)
    requires multiset(a) == multiset(b)
    ensures multiset(Selected(v, a, root)) == multiset(Selected(v, b, root))
  {
    MapMultiset(Stamped(root), a, b);
    var x, y := Map(v.issue, Map(Stamped(root), a)), Map(v.issue, Map(Stamped(root), b));
    MapMultiset(v.issue, Map(Stamped(root), a), Map(Stamped(root), b));
    forall one ensures multiset(Filter(x, v.kept))[one] == multiset(Filter(y, v.kept))[one] {
      FilterCount(x, v.kept, one);
      FilterCount(y, v.kept, one);
    }
    assert multiset(Filter(x, v.kept)) == multiset(Filter(y, v.kept));
    MapMultiset(Complete(v), Filter(x, v.kept), Filter(y, v.kept));
  }

  /** Two reports over the same findings, in whatever order they arrived and were sorted: the final check
      accepts both or rejects both, exactly as the findings have twins, and without twins the reports hold
      the same findings with the same identities. */
  lemma {:induction false} SameReports(v: View, a: seq<C.Finding>, b: seq<C.Finding>, root: string,
                                       first: seq<I.Issue>, second: seq<I.Issue>)
    requires multiset(a) == multiset(b) && Reports(v, a, root, first) && Reports(v, b, root, second)
    requires v.env.Valid() && I.AllWellFormed(v.env, Selected(v, b, root))
    ensures I.KeysDistinct(v.env, first) <==> I.NoTwins(v.env, Selected(v, b, root))
    ensures I.KeysDistinct(v.env, second) <==> I.NoTwins(v.env, Selected(v, b, root))
    ensures I.NoTwins(v.env, Selected(v, b, root)) ==> multiset(first) == multiset(second)
  {
    var selected := Selected(v, b, root);
    SelectedMultiset(v, a, b, root);
    var x :| multiset(x) == multiset(Selected(v, a, root)) && first == I.Disambiguated(v.env, x);
    var y :| multiset(y) == multiset(Selected(v, b, root)) && second == I.Disambiguated(v.env, y);
    I.PermutedReport(v.env, selected, x);
    I.PermutedReport(v.env, selected, y);
  }

  // ---------- Main result ----------

  /** What a call without a cache has found before anything is selected. */
  ghost function UncachedFindings(r: P.Run, groups: seq<string>): seq<C.Finding> {
    W.Collected(W.Indices(|r.pool.jobs|), r.Uncached()) + UncachedProgramFindings(r, groups)
  }

  /** Whatever the directory has seen before, however workers and other runs interleave, and however the
      sort orders equal findings: the final check decides as in a run without a cache, and what it accepts
      are the same findings with the same identities. */
  lemma {:induction false} ReportOfEveryRun(
      r: P.Run, packages: set<K.Package>, history: seq<C.Event>, steps: seq<P.Step>, groups: seq<string>,
        turns: seq<Turn>,
      v: View, report: seq<I.Issue>, uncached: seq<I.Issue>)
    requires r.Valid(packages) && C.Within(r.packages, packages)
    requires r.world.Valid() && C.AllClean(r.world.h, packages) && C.RootBlind(r.world, packages)
    requires C.History(packages, history) && |turns| == |groups| && Admitted(packages, turns)
    requires P.Executable(r, packages, P.Initial(r, C.Replay(r.world, history)), steps)
    requires W.Terminal(r.pool, P.After(r, packages, P.Initial(r, C.Replay(r.world, history)), steps).pool)
    requires var s := P.After(r, packages, P.Initial(r, C.Replay(r.world, history)), steps);
      Reports(v, s.all + ProgramFindings(r, groups, s.disk, turns), C.CanonicalRoot(r.packages), report)
    requires Reports(v, UncachedFindings(r, groups), C.CanonicalRoot(r.packages), uncached)
    requires var selected := Selected(v, UncachedFindings(r, groups), C.CanonicalRoot(r.packages));
      v.env.Valid() && I.AllWellFormed(v.env, selected)
    ensures I.KeysDistinct(v.env, report) <==> I.KeysDistinct(v.env, uncached)
    ensures I.KeysDistinct(v.env, uncached) ==> multiset(report) == multiset(uncached)
  {
    var s := P.After(r, packages, P.Initial(r, C.Replay(r.world, history)), steps);
    P.EveryCachedRun(r, packages, history, steps);
    ProgramsUncached(r, packages, groups, s.disk, turns);
    SameReports(v, s.all + ProgramFindings(r, groups, s.disk, turns), UncachedFindings(r, groups),
      C.CanonicalRoot(r.packages), report, uncached);
  }
}
