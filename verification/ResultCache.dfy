/** The result cache on disk: entries of package-scoped and program-scoped runner groups, looked up by
    policy, group and a flattened package name, and accepted only with the right version and hash.

    The directory is shared by runs with different policies, packages and sources, and by the
    concurrent workers of one run. A history is any sequence of the writes they make, mixed with
    torn or foreign files and deletions. */
module ResultCache {
  import opened CacheKey
  import opened Options
  import opened Ordering
  import Text

  /** A finding; `text` stands for everything but its file and its analysis root. */
  datatype Finding = Finding(filename: string, text: string, analysisRoot: string)

  const VERSION := "solidlint-cache-v12"

  /** What a file in the cache directory decodes to. */
  datatype Blob = Garbage | Entry(version: string, hash: string, issues: seq<Finding>)

  /** Fixed for all runs: the hash, the digest that names a policy, and what each runner group reports.
      A package's report depends on the hashed material and on the root its file names start with. */
  datatype World = World(
    h: Hashing,
    policyDigest: string -> string,
    findings: (string, string, Material, string) -> seq<Finding>,
    programFindings: (string, string, seq<(Material, string)>) -> seq<Finding>)
  {
    ghost predicate Valid() {
      && h.Valid()
      && (forall p, q :: policyDigest(p) == policyDigest(q) ==> p == q)
      && (forall p :: '/' !in policyDigest(p))
      && (forall p, g, m, r :: Unrooted(findings(p, g, m, r)))
      && (forall p, g, ms :: Unrooted(programFindings(p, g, ms)))
    }
  }

  /** Checks leave the analysis root empty; it is stamped afterwards and never stored. */
  ghost predicate Unrooted(issues: seq<Finding>) { forall i :: 0 <= i < |issues| ==> issues[i].analysisRoot == "" }

  function Stamp(issues: seq<Finding>, root: string): seq<Finding> {
    seq(|issues|, i requires 0 <= i < |issues| => issues[i].(analysisRoot := root))
  }

  function StampMissing(issues: seq<Finding>, root: string): seq<Finding> {
    seq(|issues|, i requires 0 <= i < |issues| =>
      if issues[i].analysisRoot == "" then issues[i].(analysisRoot := root) else issues[i])
  }

  // ---------- Where entries live ----------

  function Flattened(s: string): string {
    seq(|s|, i requires 0 <= i < |s| => if s[i] == '/' || s[i] == '\\' then '_' else s[i])
  }

  function EntryName(p: Package): string {
    if Flattened(p.pkgPath) == "" then Flattened(p.dir) else Flattened(p.pkgPath)
  }

  function EntryPath(w: World, policy: string, group: string, p: Package): string {
    w.policyDigest(policy) + ['/'] + ("runner-group" + ['/'] + (group + ['/'] + (EntryName(p) + ".json")))
  }

  function ProgramPath(w: World, policy: string, group: string): string {
    w.policyDigest(policy) + ['/'] + ("program" + ['/'] + (group + ".json"))
  }

  /** Runner groups have plain names. */
  predicate PlainGroup(group: string) { '/' !in group }

  lemma EntryPathUnique(w: World, policy: string, group: string, p: Package, policy': string, group': string,
                        q: Package)
    requires w.Valid() && PlainGroup(group) && PlainGroup(group')
    requires EntryPath(w, policy, group, p) == EntryPath(w, policy', group', q)
    ensures policy == policy' && group == group' && EntryName(p) == EntryName(q)
  {
    var a, b := group + ['/'] + (EntryName(p) + ".json"), group' + ['/'] + (EntryName(q) + ".json");
    Text.CutUnique(w.policyDigest(policy), "runner-group" + ['/'] + a,
      w.policyDigest(policy'), "runner-group" + ['/'] + b, '/');
    Text.CutUnique("runner-group", a, "runner-group", b, '/');
    Text.CutUnique(group, EntryName(p) + ".json", group', EntryName(q) + ".json", '/');
    SameEnd(EntryName(p), EntryName(q), ".json");
  }

  lemma SameEnd(a: string, b: string, end: string)
    requires a + end == b + end
    ensures a == b
  {
    assert |a| == |b|;
    assert a == (a + end)[..|a|] && b == (b + end)[..|b|];
  }

  lemma ProgramPathUnique(w: World, policy: string, group: string, policy': string, group': string)
    requires w.Valid() && ProgramPath(w, policy, group) == ProgramPath(w, policy', group')
    ensures policy == policy' && group == group'
  {
    var a, b := group + ".json", group' + ".json";
    Text.CutUnique(w.policyDigest(policy), "program" + ['/'] + a, w.policyDigest(policy'), "program" + ['/'] + b, '/');
    Text.CutUnique("program", a, "program", b, '/');
    SameEnd(group, group', ".json");
  }

  lemma PathsApart(w: World, policy: string, group: string, p: Package, policy': string, group': string)
    requires w.Valid()
    ensures EntryPath(w, policy, group, p) != ProgramPath(w, policy', group')
  {
    var a, b := group + ['/'] + (EntryName(p) + ".json"), group' + ".json";
    if EntryPath(w, policy, group, p) == ProgramPath(w, policy', group') {
      Text.CutUnique(w.policyDigest(policy), "runner-group" + ['/'] + a,
        w.policyDigest(policy'), "program" + ['/'] + b, '/');
      Text.CutUnique("runner-group", a, "program", b, '/');
    }
  }

  // ---------- Program hashes ----------

  predicate ByPath(a: Package, b: Package) { StringLeq(a.pkgPath, b.pkgPath) }

  function Hashes(h: Hashing, ps: seq<Package>): seq<string> {
    seq(|ps|, i requires 0 <= i < |ps| => PackageHash(h, ps[i]))
  }

  function ProgramHash(h: Hashing, ps: seq<Package>): string { h.sha(Stream(Hashes(h, Sorted(ps, ByPath)))) }

  /** The packages of a program in path order, as its runner sees them. */
  function Views(h: Hashing, ps: seq<Package>): seq<(Material, string)> {
    seq(|ps|, i requires 0 <= i < |ps| => (MaterialOf(h, ps[i]), ps[i].analysisRoot))
  }

  function ProgramViews(h: Hashing, ps: seq<Package>): seq<(Material, string)> { Views(h, Sorted(ps, ByPath)) }

  function Materials(views: seq<(Material, string)>): seq<Material> {
    seq(|views|, i requires 0 <= i < |views| => views[i].0)
  }

  lemma SortedMembers(ps: seq<Package>)
    ensures forall p :: p in Sorted(ps, ByPath) <==> p in ps
  {
    StringOrder();
    SortedSorts(ps, ByPath);
    SameMultisetSameElements(Sorted(ps, ByPath), ps);
  }

  ghost predicate AllClean(h: Hashing, s: set<Package>) { forall p :: p in s ==> Clean(MaterialOf(h, p)) }

  /** Programs with the same hash consist of packages with the same material. */
  lemma ProgramHashDeterminesMaterials(h: Hashing, s: set<Package>, ps: seq<Package>, qs: seq<Package>)
    requires h.Valid() && AllClean(h, s)
    requires (forall p :: p in ps ==> p in s) && (forall q :: q in qs ==> q in s)
    requires ProgramHash(h, ps) == ProgramHash(h, qs)
    ensures Materials(ProgramViews(h, ps)) == Materials(ProgramViews(h, qs))
  {
    var a, b := Sorted(ps, ByPath), Sorted(qs, ByPath);
    SortedMembers(ps);
    SortedMembers(qs);
    HashesNulFree(h, a);
    HashesNulFree(h, b);
    StreamUnique(Hashes(h, a), Hashes(h, b));
    assert |a| == |Hashes(h, a)| == |Hashes(h, b)| == |b|;
    forall i | 0 <= i < |a| ensures MaterialOf(h, a[i]) == MaterialOf(h, b[i]) {
      assert Hashes(h, a)[i] == Hashes(h, b)[i];
      assert a[i] in a && b[i] in b;
      HashDeterminesMaterial(h, a[i], b[i]);
    }
  }

  lemma HashesNulFree(h: Hashing, ps: seq<Package>)
    requires h.Valid()
    ensures AllNulFree(Hashes(h, ps))
  {
    forall i | 0 <= i < |ps| ensures NulFree(Hashes(h, ps)[i]) {
      assert Hexadecimal(h.sha(Stream(Tokens(h, MaterialOf(h, ps[i])))));
    }
  }

  /** Packages of one program have different paths, and files of one package different names. */
  ghost predicate Loadable(ps: seq<Package>) {
    && (forall p, q :: p in ps && q in ps && p.pkgPath == q.pkgPath ==> p == q)
    && (forall p :: p in ps ==> DistinctNames(p.files) && DistinctNames(p.removedFiles))
  }

  /** The order in which a program's packages are given changes neither its hash nor what its runner sees. */
  lemma PermutedProgram(h: Hashing, ps: seq<Package>, qs: seq<Package>)
    requires Loadable(ps) && multiset(ps) == multiset(qs)
    ensures ProgramHash(h, ps) == ProgramHash(h, qs) && ProgramViews(h, ps) == ProgramViews(h, qs)
  {
    StringOrder();
    SortedSorts(qs, ByPath);
    PathOrderStrict(ps);
    SortedIsTheOnly(ps, Sorted(qs, ByPath), ByPath);
  }

  lemma PathOrderStrict(ps: seq<Package>)
    requires Loadable(ps)
    ensures forall x, y :: x in ps && y in ps && ByPath(x, y) && ByPath(y, x) ==> x == y
  {
    forall x, y | x in ps && y in ps && ByPath(x, y) && ByPath(y, x) ensures x == y {
      StringLeqAntiSymmetric(x.pkgPath, y.pkgPath);
    }
  }

  method SortPackages(ps: seq<Package>) returns (sorted: seq<Package>)
    requires Loadable(ps)
    ensures sorted == Sorted(ps, ByPath)
  {
    StringOrder();
    sorted := SortSlice(ps, ByPath);
    PathOrderStrict(ps);
    SortedIsTheOnly(ps, sorted, ByPath);
  }

  method ComputeProgramHash(h: Hashing, ps: seq<Package>) returns (hash: string)
    requires Loadable(ps)
    ensures hash == ProgramHash(h, ps)
  {
    var ordered := SortPackages(ps);
    SortedMembers(ps);
    ghost var hashes := Hashes(h, ordered);
    var written := "";
    for i := 0 to |ordered|
      invariant written == Stream(hashes[..i])
    {
      assert ordered[i] in ordered;
      var one := ComputePackageHash(h, ordered[i]);
      StreamNext(hashes, i);
      written := written + one + ['\0'];
    }
    assert hashes[..|hashes|] == hashes;
    hash := h.sha(written);
  }

  lemma StreamNext(tokens: seq<string>, i: nat)
    requires i < |tokens|
    ensures Stream(tokens[..i + 1]) == Stream(tokens[..i]) + tokens[i] + ['\0']
  {
    AppendToken("", tokens[..i], tokens[i]);
    assert tokens[..i + 1] == tokens[..i] + [tokens[i]];
    assert "" + Stream(tokens[..i]) == Stream(tokens[..i]) && "" + Stream(tokens[..i + 1]) == Stream(tokens[..i + 1]);
  }

  // ---------- Histories ----------

  type Disk = map<string, Blob>

  /** Everything that changes the directory. A failed or refused write changes nothing. */
  datatype Event =
    | StorePackage(policy: string, group: string, package: Package)
    | StoreProgram(policy: string, group: string, packages: seq<Package>)
    | Overwrite(path: string, blob: Blob)
    | Remove(path: string)

  function Step(w: World, disk: Disk, e: Event): Disk {
    match e
    case StorePackage(policy, group, p) =>
      disk[EntryPath(w, policy, group, p) :=
        Entry(VERSION, PackageHash(w.h, p), Stamp(w.findings(policy, group, MaterialOf(w.h, p), p.analysisRoot), ""))]
    case StoreProgram(policy, group, ps) =>
      disk[ProgramPath(w, policy, group) :=
        Entry(VERSION, ProgramHash(w.h, ps), Stamp(w.programFindings(policy, group, ProgramViews(w.h, ps)), ""))]
    case Overwrite(path, blob) => disk[path := blob]
    case Remove(path) => disk - {path}
  }

  /** Runs use plain groups and packages of `s`; other writers leave no entry of the current version. */
  ghost predicate Admissible(s: set<Package>, e: Event) {
    match e
    case StorePackage(_, group, p) => PlainGroup(group) && p in s
    case StoreProgram(_, group, ps) => forall p :: p in ps ==> p in s
    case Overwrite(_, blob) => blob.Garbage? || blob.version != VERSION
    case Remove(_) => true
  }

  function Replay(w: World, events: seq<Event>): Disk {
    if events == [] then map[] else Step(w, Replay(w, events[..|events| - 1]), events[|events| - 1])
  }

  /** The stored findings, when the entry decodes and both version and hash match. */
  function Lookup(disk: Disk, path: string, hash: string): Option<seq<Finding>> {
    if path in disk && disk[path].Entry? && disk[path].version == VERSION && disk[path].hash == hash
    then Some(disk[path].issues) else None
  }

  // ---------- What a run reports ----------

  function Computed(w: World, policy: string, group: string, p: Package): seq<Finding> {
    w.findings(policy, group, MaterialOf(w.h, p), p.analysisRoot)
  }

  function UncachedPackage(w: World, policy: string, group: string, p: Package): seq<Finding> {
    Stamp(Computed(w, policy, group, p), p.analysisRoot)
  }

  function CachedPackage(w: World, disk: Disk, policy: string, group: string, p: Package): seq<Finding> {
    match Lookup(disk, EntryPath(w, policy, group, p), PackageHash(w.h, p))
    case Some(issues) => Stamp(issues, p.analysisRoot)
    case None => UncachedPackage(w, policy, group, p)
  }

  /** The first non-empty analysis root in load order. */
  function CanonicalRoot(ps: seq<Package>): string {
    if ps == [] then "" else if ps[0].analysisRoot != "" then ps[0].analysisRoot else CanonicalRoot(ps[1..])
  }

  function ComputedProgram(w: World, policy: string, group: string, ps: seq<Package>): seq<Finding> {
    w.programFindings(policy, group, ProgramViews(w.h, ps))
  }

  function UncachedProgram(w: World, policy: string, group: string, ps: seq<Package>): seq<Finding> {
    StampMissing(ComputedProgram(w, policy, group, ps), CanonicalRoot(ps))
  }

  function CachedProgram(w: World, disk: Disk, policy: string, group: string, ps: seq<Package>): seq<Finding> {
    match Lookup(disk, ProgramPath(w, policy, group), ProgramHash(w.h, ps))
    case Some(issues) => StampMissing(issues, CanonicalRoot(ps))
    case None => UncachedProgram(w, policy, group, ps)
  }

  // ---------- Transparency ----------

  /** After every history over `s`, every run over `s` reports what it would report without a cache. */
  ghost predicate Transparent(w: World, s: set<Package>) {
    && (forall events: seq<Event>, policy, group, p :: History(s, events) && PlainGroup(group) && p in s ==>
          CachedPackage(w, Replay(w, events), policy, group, p) == UncachedPackage(w, policy, group, p))
    && (forall events: seq<Event>, policy, group, ps :: History(s, events) && Within(ps, s) ==>
          CachedProgram(w, Replay(w, events), policy, group, ps) == UncachedProgram(w, policy, group, ps))
  }

  ghost predicate History(s: set<Package>, events: seq<Event>) {
    forall i :: 0 <= i < |events| ==> Admissible(s, events[i])
  }

  ghost predicate Within(ps: seq<Package>, s: set<Package>) { forall p :: p in ps ==> p in s }

  /** Packages the cache cannot tell apart are reported alike. */
  ghost predicate RootBlind(w: World, s: set<Package>) {
    && (forall policy, group, p, q :: PlainGroup(group) && p in s && q in s && Confusable(w, p, q) ==>
          Computed(w, policy, group, p) == Computed(w, policy, group, q))
    && (forall policy, group, ps, qs :: Within(ps, s) && Within(qs, s) && ConfusablePrograms(w, ps, qs) ==>
          ComputedProgram(w, policy, group, ps) == ComputedProgram(w, policy, group, qs))
  }

  ghost predicate Confusable(w: World, p: Package, q: Package) {
    MaterialOf(w.h, p) == MaterialOf(w.h, q) && EntryName(p) == EntryName(q)
  }

  ghost predicate ConfusablePrograms(w: World, ps: seq<Package>, qs: seq<Package>) {
    Materials(ProgramViews(w.h, ps)) == Materials(ProgramViews(w.h, qs))
  }

  /** All packages with the same hashed material lie under the same root: what a directory used for
      one analysis root guarantees. */
  ghost predicate RootsAgree(w: World, s: set<Package>) {
    forall p, q :: p in s && q in s && MaterialOf(w.h, p) == MaterialOf(w.h, q) ==> p.analysisRoot == q.analysisRoot
  }

  lemma RootsAgreeIsBlind(w: World, s: set<Package>)
    requires RootsAgree(w, s)
    ensures RootBlind(w, s)
  {
    forall policy: string, group: string, ps, qs | Within(ps, s) && Within(qs, s) && ConfusablePrograms(w, ps, qs)
      ensures ComputedProgram(w, policy, group, ps) == ComputedProgram(w, policy, group, qs)
    {
      SameViews(w, s, ps, qs);
    }
  }

  lemma SameViews(w: World, s: set<Package>, ps: seq<Package>, qs: seq<Package>)
    requires RootsAgree(w, s) && Within(ps, s) && Within(qs, s) && ConfusablePrograms(w, ps, qs)
    ensures ProgramViews(w.h, ps) == ProgramViews(w.h, qs)
  {
    var a, b := Sorted(ps, ByPath), Sorted(qs, ByPath);
    var va, vb := ProgramViews(w.h, ps), ProgramViews(w.h, qs);
    SortedMembers(ps);
    SortedMembers(qs);
    assert |va| == |Materials(va)| == |Materials(vb)| == |vb|;
    forall i | 0 <= i < |va| ensures va[i] == vb[i] {
      assert Materials(va)[i] == Materials(vb)[i];
      assert a[i] in a && b[i] in b;
    }
  }

  /** Every entry a run could accept holds what that run would compute. */
  ghost predicate Sound(w: World, s: set<Package>, disk: Disk) {
    && (forall policy, group, p :: PlainGroup(group) && p in s ==> SoundFor(w, disk, policy, group, p))
    && (forall policy, group, ps :: Within(ps, s) ==> SoundForProgram(w, disk, policy, group, ps))
  }

  ghost predicate SoundFor(w: World, disk: Disk, policy: string, group: string, p: Package) {
    var found := Lookup(disk, EntryPath(w, policy, group, p), PackageHash(w.h, p));
    found.Some? ==> found.value == Computed(w, policy, group, p)
  }

  ghost predicate SoundForProgram(w: World, disk: Disk, policy: string, group: string, ps: seq<Package>) {
    var found := Lookup(disk, ProgramPath(w, policy, group), ProgramHash(w.h, ps));
    found.Some? ==> found.value == ComputedProgram(w, policy, group, ps)
  }

  lemma StoredAsIs(issues: seq<Finding>)
    requires Unrooted(issues)
    ensures Stamp(issues, "") == issues
  {
  }

  lemma StepSoundFor(w: World, s: set<Package>, disk: Disk, e: Event, policy: string, group: string, p: Package)
    requires w.Valid() && AllClean(w.h, s) && RootBlind(w, s) && Admissible(s, e)
    requires PlainGroup(group) && p in s && SoundFor(w, disk, policy, group, p)
    ensures SoundFor(w, Step(w, disk, e), policy, group, p)
  {
    var path := EntryPath(w, policy, group, p);
    match e
    case StorePackage(policy', group', q) =>
      if EntryPath(w, policy', group', q) == path {
        EntryPathUnique(w, policy', group', q, policy, group, p);
        HashDeterminesMaterial(w.h, q, p);
        StoredAsIs(Computed(w, policy', group', q));
        assert Confusable(w, q, p) ==> Computed(w, policy, group, q) == Computed(w, policy, group, p);
      }
    case StoreProgram(policy', group', _) =>
      PathsApart(w, policy, group, p, policy', group');
    case Overwrite(_, _) =>
    case Remove(_) =>
  }

  lemma StepSoundForProgram(w: World, s: set<Package>, disk: Disk, e: Event, policy: string, group: string,
                            ps: seq<Package>)
    requires w.Valid() && AllClean(w.h, s) && RootBlind(w, s) && Admissible(s, e)
    requires Within(ps, s) && SoundForProgram(w, disk, policy, group, ps)
    ensures SoundForProgram(w, Step(w, disk, e), policy, group, ps)
  {
    match e
    case StorePackage(policy', group', q) =>
      PathsApart(w, policy', group', q, policy, group);
    case StoreProgram(policy', group', qs) =>
      if ProgramPath(w, policy', group') == ProgramPath(w, policy, group) &&
        ProgramHash(w.h, qs) == ProgramHash(w.h, ps) {
        ProgramPathUnique(w, policy', group', policy, group);
        ProgramHashDeterminesMaterials(w.h, s, qs, ps);
        StoredAsIs(ComputedProgram(w, policy', group', qs));
        assert ConfusablePrograms(w, qs, ps);
      }
    case Overwrite(_, _) =>
    case Remove(_) =>
  }

  lemma {:induction false} StepKeepsSound(w: World, s: set<Package>, disk: Disk, e: Event)
    requires w.Valid() && AllClean(w.h, s) && RootBlind(w, s) && Admissible(s, e) && Sound(w, s, disk)
    ensures Sound(w, s, Step(w, disk, e))
  {
    forall policy, group, p | PlainGroup(group) && p in s ensures SoundFor(w, Step(w, disk, e), policy, group, p) {
      StepSoundFor(w, s, disk, e, policy, group, p);
    }
    forall policy, group, ps | Within(ps, s) ensures SoundForProgram(w, Step(w, disk, e), policy, group, ps) {
      StepSoundForProgram(w, s, disk, e, policy, group, ps);
    }
  }

  lemma {:induction false} HistorySound(w: World, s: set<Package>, events: seq<Event>)
    requires w.Valid() && AllClean(w.h, s) && RootBlind(w, s) && History(s, events)
    ensures Sound(w, s, Replay(w, events))
  {
    if events == [] {
    } else {
      var before := events[..|events| - 1];
      HistorySound(w, s, before);
      StepKeepsSound(w, s, Replay(w, before), events[|events| - 1]);
    }
  }

  lemma SoundIsInvisible(w: World, s: set<Package>, disk: Disk)
    requires Sound(w, s, disk)
    ensures forall policy, group, p :: PlainGroup(group) && p in s ==>
      CachedPackage(w, disk, policy, group, p) == UncachedPackage(w, policy, group, p)
    ensures forall policy, group, ps :: Within(ps, s) ==>
      CachedProgram(w, disk, policy, group, ps) == UncachedProgram(w, policy, group, ps)
  {
    forall policy, group, p | PlainGroup(group) && p in s
      ensures CachedPackage(w, disk, policy, group, p) == UncachedPackage(w, policy, group, p)
    {
      assert SoundFor(w, disk, policy, group, p);
    }
    forall policy, group, ps | Within(ps, s)
      ensures CachedProgram(w, disk, policy, group, ps) == UncachedProgram(w, policy, group, ps)
    {
      assert SoundForProgram(w, disk, policy, group, ps);
    }
  }

  /** The cache is invisible over every history exactly when packages it cannot tell apart are
      reported alike. */
  lemma TransparentIffRootBlind(w: World, s: set<Package>)
    requires w.Valid() && AllClean(w.h, s)
    ensures Transparent(w, s) <==> RootBlind(w, s)
  {
    if RootBlind(w, s) {
      forall events: seq<Event> | History(s, events)
        ensures Sound(w, s, Replay(w, events))
      {
        HistorySound(w, s, events);
      }
      BlindIsTransparent(w, s);
    }
    if Transparent(w, s) {
      forall policy, group, p, q | PlainGroup(group) && p in s && q in s && Confusable(w, p, q)
        ensures Computed(w, policy, group, p) == Computed(w, policy, group, q)
      {
        var events := [StorePackage(policy, group, p)];
        assert History(s, events);
        assert CachedPackage(w, Replay(w, events), policy, group, q) == UncachedPackage(w, policy, group, q);
        StoredThenLoaded(w, policy, group, p, q);
      }
      forall policy, group, ps, qs | Within(ps, s) && Within(qs, s) && ConfusablePrograms(w, ps, qs)
        ensures ComputedProgram(w, policy, group, ps) == ComputedProgram(w, policy, group, qs)
      {
        var events := [StoreProgram(policy, group, ps)];
        assert History(s, events);
        assert CachedProgram(w, Replay(w, events), policy, group, qs) == UncachedProgram(w, policy, group, qs);
        StoredThenLoadedProgram(w, policy, group, ps, qs);
      }
    }
  }

  lemma {:induction false} BlindIsTransparent(w: World, s: set<Package>)
    requires forall events: seq<Event> :: History(s, events) ==> Sound(w, s, Replay(w, events))
    ensures Transparent(w, s)
  {
    forall events: seq<Event> | History(s, events)
      ensures forall policy, group, p :: PlainGroup(group) && p in s ==>
        CachedPackage(w, Replay(w, events), policy, group, p) == UncachedPackage(w, policy, group, p)
      ensures forall policy, group, ps :: Within(ps, s) ==>
        CachedProgram(w, Replay(w, events), policy, group, ps) == UncachedProgram(w, policy, group, ps)
    {
      SoundIsInvisible(w, s, Replay(w, events));
    }
  }

  lemma StampInjective(a: seq<Finding>, b: seq<Finding>, root: string)
    requires Unrooted(a) && Unrooted(b) && Stamp(a, root) == Stamp(b, root)
    ensures a == b
  {
    assert |a| == |Stamp(a, root)| == |b|;
    forall i | 0 <= i < |a| ensures a[i] == b[i] {
      assert Stamp(a, root)[i] == Stamp(b, root)[i];
      assert a[i] == Stamp(a, root)[i].(analysisRoot := "") && b[i] == Stamp(b, root)[i].(analysisRoot := "");
    }
  }

  /** A package loaded right after a confusable one was stored gets the other one's findings. */
  lemma StoredThenLoaded(w: World, policy: string, group: string, p: Package, q: Package)
    requires w.Valid() && Confusable(w, p, q)
    ensures CachedPackage(w, Replay(w, [StorePackage(policy, group, p)]), policy, group, q)
            == Stamp(Computed(w, policy, group, p), q.analysisRoot)
    ensures var disk := Replay(w, [StorePackage(policy, group, p)]);
      CachedPackage(w, disk, policy, group, q) == UncachedPackage(w, policy, group, q) <==>
      Computed(w, policy, group, p) == Computed(w, policy, group, q)
  {
    var e := StorePackage(policy, group, p);
    assert [e][..0] == [] && Replay(w, []) == map[];
    StoredAsIs(Computed(w, policy, group, p));
    if Stamp(Computed(w, policy, group, p), q.analysisRoot) == UncachedPackage(w, policy, group, q) {
      StampInjective(Computed(w, policy, group, p), Computed(w, policy, group, q), q.analysisRoot);
    }
  }

  lemma {:induction false} StoredThenLoadedProgram(w: World, policy: string, group: string, ps: seq<Package>,
                                                   qs: seq<Package>)
    requires w.Valid() && ConfusablePrograms(w, ps, qs)
    ensures var disk := Replay(w, [StoreProgram(policy, group, ps)]);
      CachedProgram(w, disk, policy, group, qs) == UncachedProgram(w, policy, group, qs) <==>
      ComputedProgram(w, policy, group, ps) == ComputedProgram(w, policy, group, qs)
  {
    var e := StoreProgram(policy, group, ps);
    assert [e][..0] == [] && Replay(w, []) == map[];
    var a, b := ComputedProgram(w, policy, group, ps), ComputedProgram(w, policy, group, qs);
    StoredAsIs(a);
    SameHash(w.h, ps, qs);
    var root := CanonicalRoot(qs);
    assert StampMissing(a, root) == Stamp(a, root) && StampMissing(b, root) == Stamp(b, root);
    if StampMissing(a, root) == StampMissing(b, root) {
      StampInjective(a, b, root);
    }
  }

  lemma SameHash(h: Hashing, ps: seq<Package>, qs: seq<Package>)
    requires Materials(ProgramViews(h, ps)) == Materials(ProgramViews(h, qs))
    ensures ProgramHash(h, ps) == ProgramHash(h, qs)
  {
    var a, b := Sorted(ps, ByPath), Sorted(qs, ByPath);
    var va, vb := ProgramViews(h, ps), ProgramViews(h, qs);
    assert |va| == |Materials(va)| == |Materials(vb)| == |vb|;
    forall i | 0 <= i < |a| ensures Hashes(h, a)[i] == Hashes(h, b)[i] {
      assert Materials(va)[i] == Materials(vb)[i];
    }
    assert Hashes(h, a) == Hashes(h, b);
  }

  /** One directory for one analysis root is always enough. */
  lemma {:induction false} OneRootTransparent(w: World, s: set<Package>)
    requires w.Valid() && AllClean(w.h, s) && RootsAgree(w, s)
    ensures Transparent(w, s)
  {
    RootsAgreeIsBlind(w, s);
    TransparentIffRootBlind(w, s);
  }

  function NamesRoot(policy: string, group: string, views: seq<(Material, string)>): seq<Finding> {
    if |views| == 1 then [Finding(views[0].1, "report", "")] else []
  }

  lemma SingleView(h: Hashing, p: Package)
    ensures ProgramViews(h, [p]) == [(MaterialOf(h, p), p.analysisRoot)]
  {
    assert [p][1..] == [];
    assert Sorted([p], ByPath) == [p];
  }

  /** Where two packages with the same hashed material lie under different roots, a program check whose
      finding names a file below the root makes the cache visible. */
  lemma {:induction false} SomeCheckTells(w: World, s: set<Package>, p: Package, q: Package) returns (other: World)
    requires w.Valid() && p in s && q in s
    requires MaterialOf(w.h, p) == MaterialOf(w.h, q) && p.analysisRoot != q.analysisRoot
    ensures other.Valid() && other.h == w.h && !Transparent(other, s)
  {
    other := w.(programFindings := NamesRoot);
    SingleView(w.h, p);
    SingleView(w.h, q);
    assert ComputedProgram(other, "", "", [p]) == [Finding(p.analysisRoot, "report", "")];
    assert ComputedProgram(other, "", "", [q]) == [Finding(q.analysisRoot, "report", "")];
    assert [Finding(p.analysisRoot, "report", "")][0] != [Finding(q.analysisRoot, "report", "")][0];
    StoredThenLoadedProgram(other, "", "", [p], [q]);
    assert History(s, [StoreProgram("", "", [p])]) && Within([q], s);
  }

  /** A cache directory is invisible whatever the checks report exactly when packages with the same
      hashed material lie under the same root. */
  lemma TransparentForEveryCheck(w: World, s: set<Package>)
    requires w.Valid() && AllClean(w.h, s)
    ensures RootsAgree(w, s) <==> forall other: World :: other.Valid() && other.h == w.h ==> Transparent(other, s)
  {
    if RootsAgree(w, s) {
      forall other: World | other.Valid() && other.h == w.h ensures Transparent(other, s) {
        OneRootTransparent(other, s);
      }
    } else {
      var p, q :| p in s && q in s && MaterialOf(w.h, p) == MaterialOf(w.h, q) && p.analysisRoot != q.analysisRoot;
      var other := SomeCheckTells(w, s, p, q);
    }
  }

  /** Two confusable packages whose findings name files below different roots: sharing a cache
      directory between them is visible. */
  lemma TwoRootsVisible(w: World, policy: string, group: string, p: Package, q: Package)
    requires w.Valid() && PlainGroup(group) && Confusable(w, p, q) && p.analysisRoot != q.analysisRoot
    requires Computed(w, policy, group, p) == [Finding(p.analysisRoot + "/main.go", "report", "")]
    requires Computed(w, policy, group, q) == [Finding(q.analysisRoot + "/main.go", "report", "")]
    ensures !Transparent(w, {p, q})
  {
    var events := [StorePackage(policy, group, p)];
    assert History({p, q}, events);
    StoredThenLoaded(w, policy, group, p, q);
    var a, b := Computed(w, policy, group, p), Computed(w, policy, group, q);
    if a == b {
      assert a[0].filename == b[0].filename;
      SameEnd(p.analysisRoot, q.analysisRoot, "/main.go");
    }
  }

  function Checkout(root: string, digest: string): Package {
    Package("example.com/app", root, "example.com/app", digest, root,
      [File(root + "/main.go", false, Readable("package app"))], [])
  }

  /** For instance two clones of one module, with the same dependencies, at /home/a and /home/b with one
      -cache-dir, and a check that reports their main.go. */
  lemma TwoClonesVisible(w: World, policy: string, group: string, digest: string)
    requires w.Valid() && PlainGroup(group)
    requires w.h.portable("/home/a", "/home/a/main.go") == w.h.portable("/home/b", "/home/b/main.go") == "main.go"
    requires forall root :: root in {"/home/a", "/home/b"} ==>
      Computed(w, policy, group, Checkout(root, digest)) == [Finding(root + "/main.go", "report", "")]
    ensures !Transparent(w, {Checkout("/home/a", digest), Checkout("/home/b", digest)})
  {
    assert "/home/a" + "/main.go" == "/home/a/main.go" && "/home/b" + "/main.go" == "/home/b/main.go";
    CheckoutMaterial(w.h, "/home/a", digest);
    CheckoutMaterial(w.h, "/home/b", digest);
    assert "/home/a"[6] != "/home/b"[6];
    TwoRootsVisible(w, policy, group, Checkout("/home/a", digest), Checkout("/home/b", digest));
  }

  lemma CheckoutMaterial(h: Hashing, root: string, digest: string)
    requires h.portable(root, root + "/main.go") == "main.go"
    ensures MaterialOf(h, Checkout(root, digest)) ==
      Material("example.com/app", "example.com/app", digest, [Line("main.go", false, Readable("package app"))], [])
  {
    var file := File(root + "/main.go", false, Readable("package app"));
    assert [file][1..] == [];
    assert Sorted([file], ByFilename) == [file];
  }

  /** A directory whose entries are right, shared by packages that are reported alike when the hash
      cannot tell them apart. */
  ghost predicate Trusted(w: World, s: set<Package>, disk: Disk) {
    w.Valid() && AllClean(w.h, s) && RootBlind(w, s) && Sound(w, s, disk)
  }

  lemma RunTrusted(w: World, s: set<Package>, disk: Disk, policy: string, group: string, p: Package)
    ensures Trusted(w, s, disk) && p in s && PlainGroup(group) ==>
      && CachedPackage(w, disk, policy, group, p) == UncachedPackage(w, policy, group, p)
      && Trusted(w, s, Step(w, disk, StorePackage(policy, group, p)))
  {
    if Trusted(w, s, disk) && p in s && PlainGroup(group) {
      SoundIsInvisible(w, s, disk);
      StepKeepsSound(w, s, disk, StorePackage(policy, group, p));
    }
  }

  lemma RunTrustedProgram(w: World, s: set<Package>, disk: Disk, policy: string, group: string, ps: seq<Package>)
    ensures Trusted(w, s, disk) && Within(ps, s) ==>
      && CachedProgram(w, disk, policy, group, ps) == UncachedProgram(w, policy, group, ps)
      && Trusted(w, s, Step(w, disk, StoreProgram(policy, group, ps)))
  {
    if Trusted(w, s, disk) && Within(ps, s) {
      SoundIsInvisible(w, s, disk);
      StepKeepsSound(w, s, disk, StoreProgram(policy, group, ps));
    }
  }

  // ---------- The cache object of one run ----------

  /** One run's handle on the directory, with its diagnostic counters. */
  class PackageCache {
    const world: World
    const policy: string
    var disk: Disk
    var hits: nat
    var misses: nat
    var stale: nat
    var corrupt: nat

    constructor (world: World, policy: string, disk: Disk)
      ensures this.world == world && this.policy == policy && this.disk == disk
      ensures hits == misses == stale == corrupt == 0
    {
      this.world, this.policy, this.disk := world, policy, disk;
      hits, misses, stale, corrupt := 0, 0, 0, 0;
    }

    /** What a look-up does to the counters: one hit or one miss; a miss on an existing file is either
        corrupt or stale. */
    twostate predicate Counted(path: string, found: Option<seq<Finding>>)
      reads this
    {
      && hits == old(hits) + (if found.Some? then 1 else 0)
      && misses == old(misses) + (if found.None? then 1 else 0)
      && corrupt == old(corrupt) + (if path in disk && disk[path].Garbage? then 1 else 0)
      && stale == old(stale) + (if path in disk && disk[path].Entry? && found.None? then 1 else 0)
    }

    method ReadEntry(path: string, hash: string) returns (found: Option<seq<Finding>>)
      modifies this`hits, this`misses, this`stale, this`corrupt
      ensures found == Lookup(disk, path, hash)
      ensures Counted(path, found)
    {
      if path !in disk {
        misses := misses + 1;
        return None;
      }
      var blob := disk[path];
      if blob.Garbage? || blob.version != VERSION || blob.hash != hash {
        misses := misses + 1;
        if blob.Garbage? {
          corrupt := corrupt + 1;
        } else {
          stale := stale + 1;
        }
        return None;
      }
      hits := hits + 1;
      return Some(blob.issues);
    }

    method Load(p: Package, group: string) returns (found: Option<seq<Finding>>)
      requires DistinctNames(p.files) && DistinctNames(p.removedFiles)
      modifies this`hits, this`misses, this`stale, this`corrupt
      ensures var entry := Lookup(disk, EntryPath(world, policy, group, p), PackageHash(world.h, p));
        found == if entry.Some? then Some(Stamp(entry.value, p.analysisRoot)) else None
      ensures Counted(EntryPath(world, policy, group, p), found)
    {
      var hash := ComputePackageHash(world.h, p);
      var entry := ReadEntry(EntryPath(world, policy, group, p), hash);
      found := if entry.Some? then Some(Stamp(entry.value, p.analysisRoot)) else None;
    }

    method Store(p: Package, group: string, issues: seq<Finding>)
      requires DistinctNames(p.files) && DistinctNames(p.removedFiles)
      modifies this`disk
      ensures disk == old(disk)[EntryPath(world, policy, group, p) :=
        Entry(VERSION, PackageHash(world.h, p), Stamp(issues, ""))]
    {
      var hash := ComputePackageHash(world.h, p);
      disk := disk[EntryPath(world, policy, group, p) := Entry(VERSION, hash, Stamp(issues, ""))];
    }

    /** A worker's handling of one job: it reports what the entry holds, or else runs the checks and
        stores. On a trusted directory that is what the checks report, found or not, and the directory
        stays trusted for every later run. */
    method RunPackage(p: Package, group: string, ghost s: set<Package>) returns (issues: seq<Finding>, hit: bool)
      requires DistinctNames(p.files) && DistinctNames(p.removedFiles)
      modifies this
      ensures issues == CachedPackage(world, old(disk), policy, group, p)
      ensures hit <==> Lookup(old(disk), EntryPath(world, policy, group, p), PackageHash(world.h, p)).Some?
      ensures disk == if hit then old(disk) else Step(world, old(disk), StorePackage(policy, group, p))
      ensures hits + misses == old(hits + misses) + 1 && (hit <==> hits == old(hits) + 1)
      ensures Trusted(world, s, old(disk)) && p in s && PlainGroup(group) ==>
        issues == UncachedPackage(world, policy, group, p) && Trusted(world, s, disk)
    {
      ghost var was := disk;
      var cached := Load(p, group);
      var local;
      if cached.Some? {
        local := cached.value;
        hit := true;
      } else {
        local := Computed(world, policy, group, p);
        Store(p, group, local);
        hit := false;
      }
      issues := Stamp(local, p.analysisRoot);
      RestampSame(cached, p.analysisRoot);
      RunTrusted(world, s, was, policy, group, p);
    }

    /** A program-scoped group: its report, stamped with the run's canonical root, in the same way. */
    method RunProgram(ps: seq<Package>, group: string, ghost s: set<Package>) returns (issues: seq<Finding>, hit: bool)
      requires Loadable(ps)
      modifies this
      ensures issues == CachedProgram(world, old(disk), policy, group, ps)
      ensures hit <==> Lookup(old(disk), ProgramPath(world, policy, group), ProgramHash(world.h, ps)).Some?
      ensures disk == if hit then old(disk) else Step(world, old(disk), StoreProgram(policy, group, ps))
      ensures hits + misses == old(hits + misses) + 1 && (hit <==> hits == old(hits) + 1)
      ensures Trusted(world, s, old(disk)) && Within(ps, s) ==>
        issues == UncachedProgram(world, policy, group, ps) && Trusted(world, s, disk)
    {
      ghost var was := disk;
      var hash := ComputeProgramHash(world.h, ps);
      var cached := ReadEntry(ProgramPath(world, policy, group), hash);
      hit := cached.Some?;
      var found;
      if cached.Some? {
        found := cached.value;
      } else {
        found := ComputedProgram(world, policy, group, ps);
        disk := disk[ProgramPath(world, policy, group) := Entry(VERSION, hash, Stamp(found, ""))];
      }
      issues := StampMissing(found, CanonicalRoot(ps));
      RunTrustedProgram(world, s, was, policy, group, ps);
    }
  }

  lemma RestampSame(found: Option<seq<Finding>>, root: string)
    ensures found.Some? ==> Stamp(Stamp(found.value, root), root) == Stamp(found.value, root)
  {
  }
}
