/** What the cache directory means for the callers of the cache: which entries share a file, which write a
    look-up sees after a whole history, and what a stamped report looks like. */
module CacheLaws {
  import opened CacheKey
  import opened Options
  import opened Ordering
  import opened ResultCache

  // ---------- Which entries share a file ----------

  predicate Separator(c: char) { c == '/' || c == '\\' || c == '_' }

  /** The names differ at most in which separators they use. */
  predicate AlikeBarSeparators(a: string, b: string) {
    |a| == |b| && forall i :: 0 <= i < |a| ==> a[i] == b[i] || (Separator(a[i]) && Separator(b[i]))
  }

  /** An entry is named by its import path or, for lack of one, by its directory. */
  function Named(p: Package): string { if p.pkgPath == "" then p.dir else p.pkgPath }

  lemma FlattenedAlike(a: string, b: string)
    ensures Flattened(a) == Flattened(b) <==> AlikeBarSeparators(a, b)
  {
    if Flattened(a) == Flattened(b) {
      assert |a| == |Flattened(a)| == |Flattened(b)| == |b|;
      forall i | 0 <= i < |a| ensures a[i] == b[i] || (Separator(a[i]) && Separator(b[i])) {
        assert Flattened(a)[i] == Flattened(b)[i];
      }
    }
  }

  lemma NameAlike(p: Package, q: Package)
    ensures EntryName(p) == EntryName(q) <==> AlikeBarSeparators(Named(p), Named(q))
  {
    assert |Flattened(p.pkgPath)| == |p.pkgPath| && |Flattened(q.pkgPath)| == |q.pkgPath|;
    FlattenedAlike(Named(p), Named(q));
  }

  /** Two package entries share a file exactly when the policies and groups are the same and the import
      paths, or the directories where there is none, differ at most in their separators. */
  lemma SharedFile(w: World, policy: string, group: string, p: Package, policy': string, group': string, q: Package)
    requires w.Valid() && PlainGroup(group) && PlainGroup(group')
    ensures EntryPath(w, policy, group, p) == EntryPath(w, policy', group', q) <==>
      policy == policy' && group == group' && AlikeBarSeparators(Named(p), Named(q))
  {
    NameAlike(p, q);
    if EntryPath(w, policy, group, p) == EntryPath(w, policy', group', q) {
      EntryPathUnique(w, policy, group, p, policy', group', q);
    }
  }

  // ---------- Which write a look-up sees ----------

  /** A look-up succeeds on an entry of the current version and the sought hash, and on nothing else. */
  lemma LookupFinds(disk: Disk, path: string, hash: string, issues: seq<Finding>)
    ensures Lookup(disk, path, hash) == Some(issues) <==>
      path in disk && disk[path] == Entry("solidlint-cache-v12", hash, issues)
  {
  }

  /** Where an event writes or deletes. */
  function Target(w: World, e: Event): string {
    match e
    case StorePackage(policy, group, p) => EntryPath(w, policy, group, p)
    case StoreProgram(policy, group, _) => ProgramPath(w, policy, group)
    case Overwrite(path, _) => path
    case Remove(path) => path
  }

  lemma StepElsewhere(w: World, disk: Disk, e: Event, path: string, hash: string)
    requires Target(w, e) != path
    ensures Lookup(Step(w, disk, e), path, hash) == Lookup(disk, path, hash)
  {
  }

  /** The last event that touched a file decides what a look-up finds there, however long ago it was. */
  lemma {:induction false} LastWriteWins(w: World, events: seq<Event>, k: nat, path: string, hash: string)
    requires k < |events| && Target(w, events[k]) == path
    requires forall i :: k < i < |events| ==> Target(w, events[i]) != path
    ensures Lookup(Replay(w, events), path, hash) == Lookup(Step(w, map[], events[k]), path, hash)
  {
    var before := events[..|events| - 1];
    if k == |events| - 1 {
    } else {
      assert forall i :: 0 <= i < |before| ==> before[i] == events[i];
      StepElsewhere(w, Replay(w, before), events[|events| - 1], path, hash);
      LastWriteWins(w, before, k, path, hash);
    }
  }

  /** A package finds what its file was last stored with exactly when that package has the same hash. */
  lemma {:induction false} PackageFinds(w: World, events: seq<Event>, k: nat, policy: string, group: string, p: Package)
    requires w.Valid() && k < |events| && events[k].StorePackage?
    requires Target(w, events[k]) == EntryPath(w, policy, group, p)
    requires forall i :: k < i < |events| ==> Target(w, events[i]) != EntryPath(w, policy, group, p)
    ensures var e := events[k];
      Lookup(Replay(w, events), EntryPath(w, policy, group, p), PackageHash(w.h, p)) ==
        if PackageHash(w.h, e.package) != PackageHash(w.h, p) then None
        else Some(w.findings(e.policy, e.group, MaterialOf(w.h, e.package), e.package.analysisRoot))
  {
    LastWriteWins(w, events, k, EntryPath(w, policy, group, p), PackageHash(w.h, p));
    StoredAsIs(Computed(w, events[k].policy, events[k].group, events[k].package));
  }

  predicate Worthless(blob: Blob) { blob.Garbage? || blob.version != "solidlint-cache-v12" }

  /** After a deletion, or a write that is not an entry of this version, nothing is found. */
  lemma {:induction false} GoneIsGone(w: World, events: seq<Event>, k: nat, path: string, hash: string)
    requires k < |events| && Target(w, events[k]) == path
    requires events[k].Remove? || (events[k].Overwrite? && Worthless(events[k].blob))
    requires forall i :: k < i < |events| ==> Target(w, events[i]) != path
    ensures Lookup(Replay(w, events), path, hash) == None
  {
    LastWriteWins(w, events, k, path, hash);
  }

  /** A program finds what its file was last stored with exactly when that program has the same hash. */
  lemma {:induction false} ProgramFinds(w: World, events: seq<Event>, k: nat, policy: string, group: string,
                                        ps: seq<Package>)
    requires w.Valid() && k < |events| && events[k].StoreProgram?
    requires Target(w, events[k]) == ProgramPath(w, policy, group)
    requires forall i :: k < i < |events| ==> Target(w, events[i]) != ProgramPath(w, policy, group)
    ensures var e := events[k];
      Lookup(Replay(w, events), ProgramPath(w, policy, group), ProgramHash(w.h, ps)) ==
        if ProgramHash(w.h, e.packages) != ProgramHash(w.h, ps) then None
        else Some(w.programFindings(e.policy, e.group, ProgramViews(w.h, e.packages)))
  {
    LastWriteWins(w, events, k, ProgramPath(w, policy, group), ProgramHash(w.h, ps));
    StoredAsIs(ComputedProgram(w, events[k].policy, events[k].group, events[k].packages));
  }

  // ---------- What a report looks like ----------

  /** The report of a package: the check's findings one by one, each under the root of the package. */
  lemma PackageReport(w: World, policy: string, group: string, p: Package, i: nat)
    requires i < |w.findings(policy, group, MaterialOf(w.h, p), p.analysisRoot)|
    ensures var checked := w.findings(policy, group, MaterialOf(w.h, p), p.analysisRoot);
      && |UncachedPackage(w, policy, group, p)| == |checked|
      && UncachedPackage(w, policy, group, p)[i] == Finding(checked[i].filename, checked[i].text, p.analysisRoot)
  {
  }

  /** The report of a program: its check sees the packages in path order, and every finding that names no
      root of its own gets the root of the first package, in load order, that has one. */
  lemma ProgramReport(w: World, policy: string, group: string, ps: seq<Package>, i: nat, k: nat)
    requires i < |w.programFindings(policy, group, ProgramViews(w.h, ps))|
    requires k < |ps| && ps[k].analysisRoot != "" && forall j :: 0 <= j < k ==> ps[j].analysisRoot == ""
    ensures var checked := w.programFindings(policy, group, ProgramViews(w.h, ps));
      && |UncachedProgram(w, policy, group, ps)| == |checked|
      && UncachedProgram(w, policy, group, ps)[i] ==
        Finding(checked[i].filename, checked[i].text,
          if checked[i].analysisRoot == "" then ps[k].analysisRoot else checked[i].analysisRoot)
  {
    FirstRoot(ps, k);
  }

  /** The canonical root is the first non-empty analysis root in load order. */
  lemma {:induction false} FirstRoot(ps: seq<Package>, k: nat)
    requires k < |ps| && ps[k].analysisRoot != "" && forall j :: 0 <= j < k ==> ps[j].analysisRoot == ""
    ensures CanonicalRoot(ps) == ps[k].analysisRoot
  {
    if k == 0 {
    } else {
      FirstRoot(ps[1..], k - 1);
    }
  }

  /** A program has no canonical root exactly when none of its packages has a root. */
  lemma {:induction false} NoRoot(ps: seq<Package>)
    ensures CanonicalRoot(ps) == "" <==> forall p :: p in ps ==> p.analysisRoot == ""
  {
    if ps == [] {
    } else {
      NoRoot(ps[1..]);
      assert forall p :: p in ps <==> p == ps[0] || p in ps[1..];
    }
  }

  /** The runner of a program group sees every package once, in the byte order of the import paths. */
  lemma ViewsInOrder(h: Hashing, ps: seq<Package>, i: nat, j: nat, k: nat)
    requires i < j < |ProgramViews(h, ps)|
    requires var a, b := ProgramViews(h, ps)[j].0.pkgPath, ProgramViews(h, ps)[i].0.pkgPath;
      k <= |a| && k <= |b| && a[..k] == b[..k] && k < |b|
    ensures var a, b := ProgramViews(h, ps)[j].0.pkgPath, ProgramViews(h, ps)[i].0.pkgPath;
      k < |a| && a[k] >= b[k]
  {
    StringOrder();
    SortedSorts(ps, ByPath);
    var a, b := Sorted(ps, ByPath)[j].pkgPath, Sorted(ps, ByPath)[i].pkgPath;
    assert ByPath(Sorted(ps, ByPath)[i], Sorted(ps, ByPath)[j]);
    if k == |a| || a[k] < b[k] {
      ByteOrder(a, b, k);
    }
  }

  /** Every package of a program is seen, with all that the hash covers and its root. */
  lemma ViewsComplete(h: Hashing, ps: seq<Package>)
    ensures |ProgramViews(h, ps)| == |ps|
    ensures forall p :: p in ps ==> (MaterialOf(h, p), p.analysisRoot) in ProgramViews(h, ps)
  {
    StringOrder();
    SortedSorts(ps, ByPath);
    SortedMembers(ps);
    assert |multiset(ps)| == |multiset(Sorted(ps, ByPath))|;
    forall p | p in ps ensures (MaterialOf(h, p), p.analysisRoot) in ProgramViews(h, ps) {
      var i :| 0 <= i < |Sorted(ps, ByPath)| && Sorted(ps, ByPath)[i] == p;
      assert ProgramViews(h, ps)[i] == (MaterialOf(h, p), p.analysisRoot);
    }
  }
}
