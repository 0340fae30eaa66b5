/** Re-checking the packages that lost excluded files, and everything that imports them, so that all
    type identities come from one graph again; or none of them. */
module SnapshotRebuild {
  import opened Options

  /** Results of type checking, known only by identity. */
  datatype TypePackage = TypePackage(id: nat)
  datatype Info = Info(id: nat)

  datatype CheckResult = CheckResult(info: Info, checked: Option<TypePackage>, error: string)

  /** What does not change: the included files, the imports they name, and the packages the loader
      resolved imports to. */
  datatype Source = Source(files: string, fileImports: seq<string>, typeImports: map<string, TypePackage>)

  /** The type information a package currently carries. */
  datatype Snapshot = Snapshot(info: Option<Info>, typePkg: Option<TypePackage>, complete: bool, reason: string,
                               rebuilds: nat) {
    predicate Usable() { info.Some? && typePkg.Some? && complete }
    function Dropped(): Snapshot { this.(info := None, typePkg := None, complete := false) }
  }

  /** The packages of a workspace by path, in load order, and the type checker. */
  datatype World = World(
    order: seq<string>,
    sources: map<string, Source>,
    check: (string, string, map<string, Option<TypePackage>>) -> CheckResult)
  {
    ghost predicate Valid() {
      && (forall path :: path in order <==> path in sources)
      && Unique(order)
    }
  }

  // ---------- Which packages are rebuilt ----------

  /** A package imports a member of `s`, as far as the loader resolved its imports. */
  predicate ImportsMember(w: World, path: string, s: set<string>) {
    path in w.sources && exists imported :: imported in w.sources[path].typeImports && imported in s
  }

  ghost predicate Closed(w: World, s: set<string>) {
    forall path :: path in w.sources && ImportsMember(w, path, s) ==> path in s
  }

  /** `s` is the least set that contains the changed packages and all importers of its members. */
  ghost predicate LeastClosure(w: World, changed: set<string>, s: set<string>) {
    && changed <= s && Closed(w, s)
    && forall t: set<string> :: changed <= t && Closed(w, t) ==> s <= t
  }

  /** Each package of the chain imports the next one, and the last one was changed. */
  ghost predicate ImportChain(w: World, chain: seq<string>, path: string, changed: set<string>) {
    && chain != [] && chain[0] == path && chain[|chain| - 1] in changed
    && forall k :: 0 <= k < |chain| - 1 ==>
         chain[k] in w.sources && chain[k + 1] in w.sources[chain[k]].typeImports
  }

  lemma {:induction false} ChainInClosure(w: World, changed: set<string>, s: set<string>, chain: seq<string>,
                                          path: string)
    requires changed <= s && Closed(w, s) && ImportChain(w, chain, path, changed)
    ensures path in s
  {
    if |chain| == 1 {
    } else {
      ChainInClosure(w, changed, s, chain[1..], chain[1]);
      assert ImportsMember(w, path, s);
    }
  }

  lemma ChainOn(w: World, chain: seq<string>, path: string, imported: string, changed: set<string>)
    requires ImportChain(w, chain, imported, changed)
    requires path in w.sources && imported in w.sources[path].typeImports
    ensures ImportChain(w, [path] + chain, path, changed)
  {
  }

  ghost function Led(w: World, changed: set<string>): set<string> {
    set p | p in w.sources && exists chain :: ImportChain(w, chain, p, changed)
  }

  lemma LedClosed(w: World, changed: set<string>, path: string)
    requires path in w.sources && ImportsMember(w, path, Led(w, changed))
    ensures path in Led(w, changed)
  {
    var imported :| imported in w.sources[path].typeImports && imported in Led(w, changed);
    var chain :| ImportChain(w, chain, imported, changed);
    ChainOn(w, chain, path, imported, changed);
  }

  lemma LedChanged(w: World, changed: set<string>)
    requires changed <= w.sources.Keys
    ensures changed <= Led(w, changed)
  {
    forall p | p in changed ensures p in Led(w, changed) {
      assert ImportChain(w, [p], p, changed);
    }
  }

  /** A package is type-checked again exactly when a chain of imports leads from it to a changed one. */
  lemma {:induction false} TargetsMean(w: World, changed: set<string>, s: set<string>, path: string)
    requires changed <= w.sources.Keys && LeastClosure(w, changed, s) && path in w.sources
    ensures path in s <==> exists chain :: ImportChain(w, chain, path, changed)
  {
    LedChanged(w, changed);
    forall p | p in w.sources && ImportsMember(w, p, Led(w, changed)) ensures p in Led(w, changed) {
      LedClosed(w, changed, p);
    }
    assert Closed(w, Led(w, changed));
    if chain :| ImportChain(w, chain, path, changed) {
      ChainInClosure(w, changed, s, chain, path);
    }
  }

  function InOrder(order: seq<string>, s: set<string>): seq<string> {
    if order == [] then []
    else InOrder(order[..|order| - 1], s) + (if order[|order| - 1] in s then [order[|order| - 1]] else [])
  }

  ghost predicate Unique(s: seq<string>) { forall i, j :: 0 <= i < j < |s| ==> s[i] != s[j] }

  lemma UniqueSnoc(s: seq<string>, last: string)
    requires Unique(s) && last !in s
    ensures Unique(s + [last])
  {
    assert forall k :: 0 <= k < |s| ==> s[k] in s;
  }

  lemma {:induction false} InOrderMembers(order: seq<string>, s: set<string>)
    requires Unique(order)
    ensures forall path :: path in InOrder(order, s) <==> path in order && path in s
    ensures Unique(InOrder(order, s))
  {
    if order == [] {
    } else {
      var init, last := order[..|order| - 1], order[|order| - 1];
      InOrderMembers(init, s);
      assert order == init + [last];
      assert last !in init;
      UniqueSnoc(InOrder(init, s), last);
    }
  }

  predicate InLoadOrder(order: seq<string>, a: string, b: string) {
    exists p, q :: 0 <= p < q < |order| && order[p] == a && order[q] == b
  }

  /** Two selected packages stand in load order. */
  lemma {:induction false} InOrderKeepsOrder(order: seq<string>, s: set<string>, i: nat, j: nat)
    returns (p: nat, q: nat)
    requires i < j < |InOrder(order, s)|
    ensures p < q < |order| && order[p] == InOrder(order, s)[i] && order[q] == InOrder(order, s)[j]
  {
    var init, last := order[..|order| - 1], order[|order| - 1];
    if j < |InOrder(init, s)| {
      p, q := InOrderKeepsOrder(init, s, i, j);
    } else {
      p := InOrderPlace(init, s, i);
      q := |init|;
    }
  }

  lemma {:induction false} InOrderPlace(order: seq<string>, s: set<string>, i: nat) returns (p: nat)
    requires i < |InOrder(order, s)|
    ensures p < |order| && order[p] == InOrder(order, s)[i]
  {
    var init, last := order[..|order| - 1], order[|order| - 1];
    if i < |InOrder(init, s)| {
      p := InOrderPlace(init, s, i);
    } else {
      p := |init|;
    }
  }

  /** Grows the set until a whole pass over the packages adds nothing. */
  method TypeRebuildTargets(w: World, changed: set<string>) returns (rebuilt: set<string>, targets: seq<string>)
    requires w.Valid() && changed <= w.sources.Keys
    ensures LeastClosure(w, changed, rebuilt) && rebuilt <= w.sources.Keys
    ensures targets == InOrder(w.order, rebuilt) && Unique(targets)
    ensures forall path :: path in targets <==> path in rebuilt
    ensures forall i, j :: 0 <= i < j < |targets| ==> InLoadOrder(w.order, targets[i], targets[j])
  {
    rebuilt := changed;
    var grew := true;
    while grew
      invariant changed <= rebuilt <= w.sources.Keys
      invariant forall t: set<string> :: changed <= t && Closed(w, t) ==> rebuilt <= t
      invariant !grew ==> Closed(w, rebuilt)
      decreases w.sources.Keys - rebuilt, grew
    {
      grew := false;
      ghost var before := rebuilt;
      for i := 0 to |w.order|
        invariant before <= rebuilt <= w.sources.Keys
        invariant forall t: set<string> :: changed <= t && Closed(w, t) ==> rebuilt <= t
        invariant grew <==> rebuilt != before
        invariant !grew ==> forall k :: 0 <= k < i && ImportsMember(w, w.order[k], rebuilt) ==> w.order[k] in rebuilt
      {
        var path := w.order[i];
        assert path in w.sources;
        if path in rebuilt {
          continue;
        }
        if ImportsMember(w, path, rebuilt) {
          forall t: set<string> | changed <= t && Closed(w, t) ensures rebuilt + {path} <= t {
            assert ImportsMember(w, path, t);
          }
          rebuilt := rebuilt + {path};
          grew := true;
        }
      }
      if !grew {
        forall path | path in w.sources && ImportsMember(w, path, rebuilt) ensures path in rebuilt {
          assert path in w.order;
        }
      }
    }
    targets := [];
    for i := 0 to |w.order|
      invariant targets == InOrder(w.order[..i], rebuilt)
    {
      assert w.order[..i + 1][..i] == w.order[..i];
      if w.order[i] in rebuilt {
        targets := targets + [w.order[i]];
      }
    }
    assert w.order[..|w.order|] == w.order;
    InOrderMembers(w.order, rebuilt);
    forall i, j | 0 <= i < j < |targets| ensures InLoadOrder(w.order, targets[i], targets[j]) {
      var p, q := InOrderKeepsOrder(w.order, rebuilt, i, j);
    }
  }

  // ---------- What the rebuilt graph looks like ----------

  function Get<K, V>(m: map<K, V>, k: K): Option<V> { if k in m then Some(m[k]) else None }

  /** What a package carries after a check. */
  function Outcome(r: CheckResult, rebuilds: nat): Snapshot {
    Snapshot(Some(r.info), r.checked, r.error == "" && r.checked.Some?, r.error, rebuilds)
  }

  function Checked(before: Snapshot, r: CheckResult): Snapshot { Outcome(r, before.rebuilds + 1) }

  /** What is rebuilt: the targets, and the snapshots they and all others were loaded with. */
  datatype Task = Task(world: World, targets: set<string>, loaded: map<string, Snapshot>) {
    predicate Valid() { targets <= world.sources.Keys && targets <= loaded.Keys }

    predicate Usable(path: string) { path in loaded && loaded[path].Usable() }

    /** A target names a target among its imports. */
    predicate Imports(path: string, imported: string) {
      && path in targets && path in world.sources && imported in world.sources[path].fileImports
      && imported in targets && imported != ""
    }

    predicate Walk(s: seq<string>) { |s| >= 2 && forall k :: 0 <= k < |s| - 1 ==> Imports(s[k], s[k + 1]) }

    /** A chain of one import or more. */
    ghost predicate Leads(a: string, b: string) { exists s :: Walk(s) && s[0] == a && s[|s| - 1] == b }
  }

  lemma LeadsDirectly(t: Task, path: string, imported: string)
    requires t.Imports(path, imported)
    ensures t.Leads(path, imported)
  {
    assert t.Walk([path, imported]);
  }

  lemma LeadsOn(t: Task, a: string, path: string, imported: string)
    requires t.Leads(a, path) && t.Imports(path, imported)
    ensures t.Leads(a, imported)
  {
    var s :| t.Walk(s) && s[0] == a && s[|s| - 1] == path;
    var longer := s + [imported];
    assert t.Walk(longer) && longer[0] == a && longer[|longer| - 1] == imported;
  }

  lemma WalkOn(t: Task, s: seq<string>)
    requires t.Walk(s) && |s| > 2
    ensures t.Walk(s[1..])
  {
    var rest := s[1..];
    forall k | 0 <= k < |rest| - 1 ensures t.Imports(rest[k], rest[k + 1]) {
      assert t.Imports(s[k + 1], s[k + 2]);
    }
  }

  /** A rank that falls along imports between targets: Go forbids import cycles. */
  ghost predicate Acyclic(t: Task, rank: string -> nat) {
    forall path, imported :: t.Imports(path, imported) ==> rank(imported) < rank(path)
  }

  lemma {:induction false} WalkDescends(t: Task, rank: string -> nat, s: seq<string>)
    requires Acyclic(t, rank) && t.Walk(s)
    ensures rank(s[|s| - 1]) < rank(s[0])
  {
    assert t.Imports(s[0], s[1]);
    if |s| == 2 {
    } else {
      WalkOn(t, s);
      WalkDescends(t, rank, s[1..]);
    }
  }

  /** `imported` was finished before `path`. */
  predicate Earlier(at: map<string, nat>, imported: string, path: string) {
    imported in at && (path in at ==> at[imported] < at[path])
  }

  /** What an import of `path` resolves to: outside the targets what the loader found; inside nothing for
      unusable packages, the new package of one finished earlier, and the loaded package of any other. */
  ghost function ResolveAt(t: Task, graph: map<string, Snapshot>, at: map<string, nat>, path: string, imported: string)
    : Option<TypePackage>
    requires t.Valid() && t.targets <= graph.Keys && path in t.targets
  {
    if imported !in t.targets || imported == "" then Get(t.world.sources[path].typeImports, imported)
    else if !t.Usable(imported) then None
    else if Earlier(at, imported, path) then graph[imported].typePkg
    else t.loaded[imported].typePkg
  }

  ghost function ImportsAt(t: Task, graph: map<string, Snapshot>, at: map<string, nat>, path: string)
    : map<string, Option<TypePackage>>
    requires t.Valid() && t.targets <= graph.Keys && path in t.targets
  {
    map imported | imported in t.world.sources[path].fileImports :: ResolveAt(t, graph, at, path, imported)
  }

  ghost function ImportsUpTo(t: Task, graph: map<string, Snapshot>, at: map<string, nat>, path: string, n: nat)
    : map<string, Option<TypePackage>>
    requires t.Valid() && t.targets <= graph.Keys && path in t.targets && n <= |t.world.sources[path].fileImports|
  {
    map imported | imported in t.world.sources[path].fileImports[..n] :: ResolveAt(t, graph, at, path, imported)
  }

  lemma ImportsNext(t: Task, graph: map<string, Snapshot>, at: map<string, nat>, path: string, n: nat)
    requires t.Valid() && t.targets <= graph.Keys && path in t.targets && n < |t.world.sources[path].fileImports|
    ensures var imported := t.world.sources[path].fileImports[n];
      ImportsUpTo(t, graph, at, path, n + 1)
      == ImportsUpTo(t, graph, at, path, n)[imported := ResolveAt(t, graph, at, path, imported)]
  {
    var imports := t.world.sources[path].fileImports;
    assert imports[..n + 1] == imports[..n] + [imports[n]];
  }

  lemma ImportsAll(t: Task, graph: map<string, Snapshot>, at: map<string, nat>, path: string)
    requires t.Valid() && t.targets <= graph.Keys && path in t.targets
    ensures ImportsUpTo(t, graph, at, path, |t.world.sources[path].fileImports|) == ImportsAt(t, graph, at, path)
    ensures ImportsUpTo(t, graph, at, path, 0) == map[]
  {
    var imports := t.world.sources[path].fileImports;
    assert imports[..|imports|] == imports;
  }

  /** Only imports that lead back are resolved to loaded packages of targets. */
  ghost predicate BackOnly(t: Task, at: map<string, nat>, path: string) {
    forall imported :: t.Imports(path, imported) && t.Usable(imported) && !Earlier(at, imported, path) ==>
      t.Leads(imported, path)
  }

  /** One target of the rebuilt graph: dropped if it was unusable, otherwise the check of its files against
      the packages its imports resolve to, counted once. */
  ghost predicate GroundedAt(t: Task, graph: map<string, Snapshot>, at: map<string, nat>, path: string)
    requires t.Valid() && t.targets <= graph.Keys && path in t.targets
  {
    if !t.Usable(path) then graph[path] == t.loaded[path].Dropped()
    else
      && path in at && BackOnly(t, at, path)
      && graph[path] == Checked(t.loaded[path],
                                t.world.check(path, t.world.sources[path].files, ImportsAt(t, graph, at, path)))
  }

  /** Times of completion: all before `clock`, and no two equal. */
  ghost predicate Clocked(at: map<string, nat>, clock: nat) {
    && (forall path :: path in at ==> at[path] < clock)
    && (forall path, other :: path in at && other in at && at[path] == at[other] ==> path == other)
  }

  /** The whole rebuilt graph, for targets finished in the order `at`. */
  ghost predicate Grounded(t: Task, graph: map<string, Snapshot>, at: map<string, nat>) {
    && t.Valid() && t.targets <= graph.Keys && (exists clock :: Clocked(at, clock))
    && forall path {:trigger GroundedAt(t, graph, at, path)} :: path in t.targets ==> GroundedAt(t, graph, at, path)
  }

  /** The check that a usable target went through. */
  ghost function CheckOf(t: Task, graph: map<string, Snapshot>, at: map<string, nat>, path: string): CheckResult
    requires t.Valid() && t.targets <= graph.Keys && path in t.targets
  {
    t.world.check(path, t.world.sources[path].files, ImportsAt(t, graph, at, path))
  }

  /** The target was usable, and its check reported nothing and yielded a package. */
  ghost predicate CheckedClean(t: Task, graph: map<string, Snapshot>, at: map<string, nat>, path: string)
    requires t.Valid() && t.targets <= graph.Keys && path in t.targets
  {
    t.Usable(path) && CheckOf(t, graph, at, path).error == "" && CheckOf(t, graph, at, path).checked.Some?
  }

  /** What a target carries in the rebuilt graph, in terms of what the checker said. */
  lemma CarriesItsCheck(t: Task, graph: map<string, Snapshot>, at: map<string, nat>, path: string)
    requires Grounded(t, graph, at) && path in t.targets
    ensures graph[path].complete <==> CheckedClean(t, graph, at, path)
    ensures var was := t.loaded[path];
      if was.info != None && was.typePkg != None && was.complete then
        var r := t.world.check(path, t.world.sources[path].files, ImportsAt(t, graph, at, path));
        && graph[path].info == Some(r.info) && graph[path].typePkg == r.checked && graph[path].reason == r.error
        && (graph[path].complete <==> r.error == "" && r.checked != None)
        && graph[path].rebuilds == was.rebuilds + 1
      else
        && graph[path].info == None && graph[path].typePkg == None && !graph[path].complete
        && graph[path].rebuilds == was.rebuilds && graph[path].reason == was.reason
  {
    assert GroundedAt(t, graph, at, path);
  }

  /** What the checker of a usable target was given for one of the imports its files name. */
  lemma GivenImport(t: Task, graph: map<string, Snapshot>, at: map<string, nat>, path: string, imported: string)
    requires Grounded(t, graph, at) && path in t.targets && t.Usable(path)
    ensures imported in ImportsAt(t, graph, at, path) <==> imported in t.world.sources[path].fileImports
    ensures imported in ImportsAt(t, graph, at, path) ==>
      var found := ImportsAt(t, graph, at, path)[imported];
      if imported !in t.targets || imported == "" then
        if imported in t.world.sources[path].typeImports then found == Some(t.world.sources[path].typeImports[imported])
        else found == None
      else if t.Leads(imported, path) then
        found == graph[imported].typePkg || found == t.loaded[imported].typePkg
      else found == graph[imported].typePkg
  {
    assert GroundedAt(t, graph, at, path);
    if t.Imports(path, imported) { assert GroundedAt(t, graph, at, imported); }
  }

  // ---------- Coherent graphs ----------

  /** In a coherent graph imports of targets resolve to their final packages. */
  ghost function Resolve(t: Task, final: map<string, Snapshot>, path: string, imported: string): Option<TypePackage>
    requires t.Valid() && t.targets <= final.Keys && path in t.targets
  {
    if imported in t.targets && imported != "" then final[imported].typePkg
    else Get(t.world.sources[path].typeImports, imported)
  }

  ghost function ResolvedImports(t: Task, final: map<string, Snapshot>, path: string): map<string, Option<TypePackage>>
    requires t.Valid() && t.targets <= final.Keys && path in t.targets
  {
    map imported | imported in t.world.sources[path].fileImports :: Resolve(t, final, path, imported)
  }

  /** One target in a coherent graph: dropped if it was unusable, otherwise the check of its files
      against the final packages of its imports, counted once. */
  ghost predicate CoherentAt(t: Task, final: map<string, Snapshot>, path: string)
    requires t.Valid() && t.targets <= final.Keys && path in t.targets
  {
    final[path] ==
      if !t.Usable(path) then t.loaded[path].Dropped()
      else Checked(t.loaded[path], t.world.check(path, t.world.sources[path].files, ResolvedImports(t, final, path)))
  }

  ghost predicate Coherent(t: Task, final: map<string, Snapshot>) {
    && t.Valid() && t.targets <= final.Keys
    && forall path {:trigger CoherentAt(t, final, path)} :: path in t.targets ==> CoherentAt(t, final, path)
  }

  /** Without import cycles there is only one coherent graph. */
  lemma {:induction false} CoherentUnique(t: Task, rank: string -> nat, a: map<string, Snapshot>,
                                          b: map<string, Snapshot>, path: string)
    requires Acyclic(t, rank) && Coherent(t, a) && Coherent(t, b) && path in t.targets
    ensures a[path] == b[path]
    decreases rank(path)
  {
    assert CoherentAt(t, a, path) && CoherentAt(t, b, path);
    forall imported | imported in t.world.sources[path].fileImports
      ensures Resolve(t, a, path, imported) == Resolve(t, b, path, imported)
    {
      if t.Imports(path, imported) { CoherentUnique(t, rank, a, b, imported); }
    }
    assert ResolvedImports(t, a, path) == ResolvedImports(t, b, path);
  }

  /** Without import cycles the rebuilt graph is the coherent one, in whatever order targets were finished. */
  lemma {:induction false} GroundedIsCoherent(t: Task, rank: string -> nat, graph: map<string, Snapshot>,
                                              at: map<string, nat>)
    requires Grounded(t, graph, at) && Acyclic(t, rank)
    ensures Coherent(t, graph)
  {
    forall path | path in t.targets ensures CoherentAt(t, graph, path) {
      assert GroundedAt(t, graph, at, path);
      if t.Usable(path) {
        forall imported | imported in t.world.sources[path].fileImports
          ensures ResolveAt(t, graph, at, path, imported) == Resolve(t, graph, path, imported)
        {
          if t.Imports(path, imported) { NewPackage(t, rank, graph, at, path, imported); }
        }
        assert ImportsAt(t, graph, at, path) == ResolvedImports(t, graph, path);
      }
    }
  }

  lemma {:induction false} NewPackage(t: Task, rank: string -> nat, graph: map<string, Snapshot>, at: map<string, nat>,
                                      path: string, imported: string)
    requires Grounded(t, graph, at) && Acyclic(t, rank) && t.Imports(path, imported) && t.Usable(path)
    ensures ResolveAt(t, graph, at, path, imported) == graph[imported].typePkg
  {
    assert GroundedAt(t, graph, at, path) && GroundedAt(t, graph, at, imported);
    if t.Leads(imported, path) {
      var s :| t.Walk(s) && s[0] == imported && s[|s| - 1] == path;
      WalkDescends(t, rank, s);
    }
  }

  /** Around every import cycle of usable targets some package was checked against the loaded package of
      its import, so identities of both graphs meet. */
  lemma {:induction false} CycleMixes(t: Task, graph: map<string, Snapshot>, at: map<string, nat>,
                                      s: seq<string>)
    returns (k: nat)
    requires Grounded(t, graph, at) && t.Walk(s) && s[0] == s[|s| - 1]
    requires forall path :: path in s ==> t.Usable(path)
    ensures k < |s| - 1 && s[k] in t.targets
    ensures ResolveAt(t, graph, at, s[k], s[k + 1]) == t.loaded[s[k + 1]].typePkg
    ensures !Earlier(at, s[k + 1], s[k])
  {
    assert t.Imports(s[0], s[1]) && s[0] in s;
    assert GroundedAt(t, graph, at, s[0]);
    k := NotEarlier(t, graph, at, s);
    assert t.Imports(s[k], s[k + 1]) && s[k + 1] in s;
  }

  /** Were every import finished before its importer, completion times would fall along the walk. */
  lemma {:induction false} NotEarlier(t: Task, graph: map<string, Snapshot>, at: map<string, nat>,
                                      s: seq<string>)
    returns (k: nat)
    requires Grounded(t, graph, at) && t.Walk(s)
    requires forall path :: path in s ==> t.Usable(path)
    requires s[0] in at && s[|s| - 1] in at && at[s[0]] <= at[s[|s| - 1]]
    ensures k < |s| - 1 && !Earlier(at, s[k + 1], s[k])
  {
    assert t.Imports(s[0], s[1]) && s[1] in s;
    assert GroundedAt(t, graph, at, s[1]);
    if !Earlier(at, s[1], s[0]) {
      return 0;
    }
    assert |s| > 2;
    WalkOn(t, s);
    k := NotEarlier(t, graph, at, s[1..]);
    k := k + 1;
  }

  /** The mark that a package gets when it is met while being visited never lasts: a package on a cycle
      whose check finds nothing wrong ends complete and without a reason. */
  lemma CycleUnreported(t: Task, graph: map<string, Snapshot>, at: map<string, nat>, path: string)
    requires Grounded(t, graph, at) && path in t.targets && t.Usable(path)
    requires forall imports ::
      var r := t.world.check(path, t.world.sources[path].files, imports); r.error == "" && r.checked.Some?
    ensures graph[path].complete && graph[path].reason == ""
  {
    assert GroundedAt(t, graph, at, path);
  }

  // ---------- The progress of a rebuild ----------

  datatype Progress = Visiting | Built

  /** Everything a rebuild changes, and when each target was finished. */
  datatype Stage = Stage(
    fields: map<string, Snapshot>, state: map<string, Progress>, built: map<string, Option<TypePackage>>,
    at: map<string, nat>, clock: nat)
  {
    ghost function InProgress(): set<string> { set path | path in state && state[path].Visiting? }
  }

  /** How far a target has come: as loaded (or dropped, when unusable), being visited, or rebuilt. */
  ghost predicate Fits(t: Task, g: Stage, path: string)
    requires t.Valid() && t.targets <= g.fields.Keys && path in t.targets
  {
    var progress: Option<Progress> := Get(g.state, path);
    match progress
    case None => path !in g.at && (g.fields[path] == t.loaded[path] || DroppedAt(t, g, path))
    case Some(Visiting) =>
      && path !in g.at && t.Usable(path) && g.fields[path].typePkg == t.loaded[path].typePkg
      && g.fields[path].rebuilds == t.loaded[path].rebuilds + 1
    case Some(Built) =>
      && path in g.at && t.Usable(path) && GroundedAt(t, g.fields, g.at, path)
      && Get(g.built, path) == Some(g.fields[path].typePkg)
  }

  predicate DroppedAt(t: Task, g: Stage, path: string) {
    path in t.loaded && path in g.fields && !t.Usable(path) && g.fields[path] == t.loaded[path].Dropped()
  }

  ghost predicate Progressed(t: Task, g: Stage) {
    && t.Valid() && g.fields.Keys == t.loaded.Keys && g.state.Keys <= t.targets && g.at.Keys <= t.targets
    && Clocked(g.at, g.clock)
    && (forall path :: path in g.fields && path !in t.targets ==> g.fields[path] == t.loaded[path])
    && (forall path {:trigger Fits(t, g, path)} :: path in t.targets ==> Fits(t, g, path))
  }

  /** Between two stages only `path` changed, and it was perhaps finished. */
  predicate Moved(t: Task, g: Stage, g': Stage, path: string) {
    && path in t.targets && path in g'.fields && g'.fields == g.fields[path := g'.fields[path]]
    && g'.state.Keys <= t.targets
    && ((g'.at == g.at && g'.clock == g.clock) || (g'.at == g.at[path := g.clock] && g'.clock == g.clock + 1))
    && SameElsewhere(g.state, g'.state, path) && SameElsewhere(g.built, g'.built, path)
  }

  predicate SameElsewhere<V(==)>(m: map<string, V>, m': map<string, V>, path: string) { m - {path} == m' - {path} }

  lemma GetElsewhere<V>(m: map<string, V>, m': map<string, V>, path: string, other: string)
    requires SameElsewhere(m, m', path) && other != path
    ensures Get(m, other) == Get(m', other)
  {
    assert other in m <==> other in m - {path};
    assert other in m' <==> other in m' - {path};
    if other in m { assert (m - {path})[other] == m[other] && (m' - {path})[other] == m'[other]; }
  }

  /** The completion of another target does not change what a finished one resolved its imports to. */
  lemma GroundedStays(t: Task, g: Stage, g': Stage, path: string, other: string)
    requires Progressed(t, g) && Moved(t, g, g', path) && path !in g.at && other in g.at && other in t.targets
    requires t.Usable(other) && GroundedAt(t, g.fields, g.at, other)
    ensures GroundedAt(t, g'.fields, g'.at, other)
  {
    forall imported ensures Earlier(g'.at, imported, other) <==> Earlier(g.at, imported, other) {
    }
    assert ImportsAt(t, g'.fields, g'.at, other) == ImportsAt(t, g.fields, g.at, other);
  }

  lemma OtherFits(t: Task, g: Stage, g': Stage, path: string, other: string)
    requires Progressed(t, g) && Moved(t, g, g', path) && path !in g.at && other in t.targets && other != path
    ensures Fits(t, g', other)
  {
    assert Fits(t, g, other);
    GetElsewhere(g.state, g'.state, path, other);
    GetElsewhere(g.built, g'.built, path, other);
    if Get(g.state, other) == Some(Built) { GroundedStays(t, g, g', path, other); }
  }

  /** One target moves forward, the others stay. */
  lemma {:induction false} MoveOne(t: Task, g: Stage, g': Stage, path: string)
    requires Progressed(t, g) && Moved(t, g, g', path) && path !in g.at && Fits(t, g', path)
    ensures Progressed(t, g')
  {
    forall other | other in t.targets ensures Fits(t, g', other) {
      if other != path { OtherFits(t, g, g', path, other); }
    }
  }

  /** What was finished or dropped stays so. */
  ghost predicate Extends(t: Task, g: Stage, g': Stage) {
    && (forall path :: path in g.at && path in g.fields ==>
          path in g'.at && g'.at[path] == g.at[path] && path in g'.fields && g'.fields[path] == g.fields[path])
    && (forall path :: DroppedAt(t, g, path) ==> DroppedAt(t, g', path))
  }

  lemma ExtendsOn(t: Task, a: Stage, b: Stage, c: Stage)
    requires Extends(t, a, b) && Extends(t, b, c)
    ensures Extends(t, a, c)
  {
  }

  lemma MoveExtends(t: Task, g: Stage, g': Stage, path: string)
    requires Moved(t, g, g', path) && path !in g.at && (t.Usable(path) || DroppedAt(t, g', path))
    ensures Extends(t, g, g')
  {
  }

  lemma VisitingAfter(g: Stage, path: string)
    ensures forall g': Stage :: g'.state == g.state[path := Built] ==> g'.InProgress() == g.InProgress() - {path}
    ensures forall g': Stage :: g'.state == g.state[path := Visiting] ==> g'.InProgress() == g.InProgress() + {path}
  {
  }

  /** A cycle is reported on a package that is being visited. */
  function Marked(g: Stage, path: string): Stage
    requires path in g.fields
  {
    g.(fields := g.fields[path := g.fields[path].(complete := false, reason := CYCLE)])
  }

  const CYCLE := "import cycle while rebuilding filtered snapshot"

  lemma MarkKeeps(t: Task, g: Stage, path: string)
    requires Progressed(t, g) && path in t.targets && path in g.InProgress()
    ensures Progressed(t, Marked(g, path)) && Extends(t, g, Marked(g, path))
    ensures t.Usable(path) && path !in g.at && Marked(g, path).fields[path].typePkg == t.loaded[path].typePkg
  {
    assert Fits(t, g, path);
    MoveOne(t, g, Marked(g, path), path);
    MoveExtends(t, g, Marked(g, path), path);
  }

  /** An unusable target loses what it carries. */
  function Emptied(g: Stage, path: string): Stage
    requires path in g.fields
  {
    g.(fields := g.fields[path := g.fields[path].Dropped()])
  }

  lemma DropKeeps(t: Task, g: Stage, path: string)
    requires Progressed(t, g) && path in t.targets && Get(g.state, path) == None && !g.fields[path].Usable()
    ensures Progressed(t, Emptied(g, path)) && Extends(t, g, Emptied(g, path)) && DroppedAt(t, Emptied(g, path), path)
  {
    assert Fits(t, g, path);
    MoveOne(t, g, Emptied(g, path), path);
    MoveExtends(t, g, Emptied(g, path), path);
  }

  /** A usable target is being visited from now on, and its rebuild is counted. */
  function Entered(g: Stage, path: string): Stage
    requires path in g.fields
  {
    g.(fields := g.fields[path := g.fields[path].(rebuilds := g.fields[path].rebuilds + 1)],
       state := g.state[path := Visiting])
  }

  lemma EnterKeeps(t: Task, g: Stage, path: string)
    requires Progressed(t, g) && path in t.targets && Get(g.state, path) == None && g.fields[path].Usable()
    ensures Progressed(t, Entered(g, path)) && Extends(t, g, Entered(g, path))
    ensures path !in g.InProgress() && Entered(g, path).InProgress() == g.InProgress() + {path}
  {
    assert Fits(t, g, path);
    VisitingAfter(g, path);
    MoveOne(t, g, Entered(g, path), path);
    MoveExtends(t, g, Entered(g, path), path);
  }

  /** A check is over. */
  function Finished(g: Stage, path: string, r: CheckResult): Stage
    requires path in g.fields
  {
    Stage(g.fields[path := Outcome(r, g.fields[path].rebuilds)], g.state[path := Built], g.built[path := r.checked],
          g.at[path := g.clock], g.clock + 1)
  }

  lemma FinishFits(t: Task, g: Stage, path: string, r: CheckResult)
    requires Progressed(t, g) && path in t.targets && path in g.InProgress() && BackOnly(t, g.at, path)
    requires r == t.world.check(path, t.world.sources[path].files, ImportsAt(t, g.fields, g.at, path))
    ensures path !in g.at && t.Usable(path) && Fits(t, Finished(g, path, r), path)
  {
    assert Fits(t, g, path);
    var after := Finished(g, path, r);
    forall imported ensures Earlier(after.at, imported, path) <==> Earlier(g.at, imported, path) {
    }
    assert ImportsAt(t, after.fields, after.at, path) == ImportsAt(t, g.fields, g.at, path);
  }

  lemma FinishKeeps(t: Task, g: Stage, path: string, r: CheckResult)
    requires Progressed(t, g) && path in t.targets && path in g.InProgress() && BackOnly(t, g.at, path)
    requires r == t.world.check(path, t.world.sources[path].files, ImportsAt(t, g.fields, g.at, path))
    ensures Progressed(t, Finished(g, path, r)) && Extends(t, g, Finished(g, path, r))
    ensures Finished(g, path, r).InProgress() == g.InProgress() - {path}
  {
    VisitingAfter(g, path);
    FinishFits(t, g, path, r);
    MoveOne(t, g, Finished(g, path, r), path);
    MoveExtends(t, g, Finished(g, path, r), path);
  }

  /** The target has been dealt with: dropped, finished or being visited. */
  ghost predicate Known(t: Task, g: Stage, path: string) {
    if !t.Usable(path) then DroppedAt(t, g, path) else path in g.at || path in g.InProgress()
  }

  /** The first `n` imports of `path` have been dealt with and are resolved. */
  ghost predicate ImportsDone(t: Task, g: Stage, path: string, n: nat, resolved: map<string, Option<TypePackage>>) {
    && Progressed(t, g) && path in t.targets && n <= |t.world.sources[path].fileImports|
    && resolved == ImportsUpTo(t, g.fields, g.at, path, n)
    && forall k :: 0 <= k < n && t.Imports(path, t.world.sources[path].fileImports[k]) ==>
         Known(t, g, t.world.sources[path].fileImports[k])
  }

  /** While `path` is being visited an import that is known keeps its resolution. */
  lemma ResolvedStays(t: Task, g: Stage, g': Stage, path: string, imported: string)
    requires Progressed(t, g) && Progressed(t, g') && Extends(t, g, g') && g.InProgress() == g'.InProgress()
    requires path in t.targets && path in g.InProgress() && (t.Imports(path, imported) ==> Known(t, g, imported))
    requires imported in t.world.sources[path].fileImports
    ensures ResolveAt(t, g'.fields, g'.at, path, imported) == ResolveAt(t, g.fields, g.at, path, imported)
    ensures t.Imports(path, imported) ==> Known(t, g', imported)
  {
    assert Fits(t, g, path) && Fits(t, g', path);
    if t.Imports(path, imported) { assert Fits(t, g, imported) && Fits(t, g', imported); }
  }

  lemma {:induction false} ImportsStep(t: Task, g: Stage, g': Stage, path: string, n: nat,
                                       resolved: map<string, Option<TypePackage>>, found: Option<TypePackage>)
    requires ImportsDone(t, g, path, n, resolved) && n < |t.world.sources[path].fileImports|
    requires Progressed(t, g') && Extends(t, g, g') && g.InProgress() == g'.InProgress() && path in g.InProgress()
    requires var imported := t.world.sources[path].fileImports[n];
      && found == ResolveAt(t, g'.fields, g'.at, path, imported) &&
        (t.Imports(path, imported) ==> Known(t, g', imported))
    ensures ImportsDone(t, g', path, n + 1, resolved[t.world.sources[path].fileImports[n] := found])
  {
    var imports := t.world.sources[path].fileImports;
    forall k | 0 <= k < n
      ensures ResolveAt(t, g'.fields, g'.at, path, imports[k]) == ResolveAt(t, g.fields, g.at, path, imports[k])
      ensures t.Imports(path, imports[k]) ==> Known(t, g', imports[k])
    {
      ResolvedStays(t, g, g', path, imports[k]);
    }
    assert ImportsUpTo(t, g'.fields, g'.at, path, n) == ImportsUpTo(t, g.fields, g.at, path, n);
    ImportsNext(t, g'.fields, g'.at, path, n);
  }

  /** Imports that are known but not finished are being visited, and so lead back. */
  lemma {:induction false} KnownBackOnly(t: Task, g: Stage, path: string, resolved: map<string, Option<TypePackage>>)
    requires path in t.world.sources && path in g.InProgress()
    requires ImportsDone(t, g, path, |t.world.sources[path].fileImports|, resolved)
    requires forall other :: other in g.InProgress() ==> other == path || t.Leads(other, path)
    ensures BackOnly(t, g.at, path)
  {
    var imports := t.world.sources[path].fileImports;
    assert Fits(t, g, path);
    forall imported | t.Imports(path, imported) && t.Usable(imported) && !Earlier(g.at, imported, path)
      ensures t.Leads(imported, path)
    {
      var k :| 0 <= k < |imports| && imports[k] == imported;
      assert Known(t, g, imported);
      if imported == path { LeadsDirectly(t, path, path); }
    }
  }

  lemma {:induction false} AllGrounded(t: Task, g: Stage)
    requires Progressed(t, g) && g.InProgress() == {} && forall path :: path in t.targets ==> Known(t, g, path)
    ensures Grounded(t, g.fields, g.at)
  {
    forall path | path in t.targets ensures GroundedAt(t, g.fields, g.at, path) {
      assert Known(t, g, path) && Fits(t, g, path);
    }
  }

  /** The package an importer gets for a target that is known. */
  function PackageOf(t: Task, g: Stage, path: string): Option<TypePackage> {
    if !t.Usable(path) then None
    else if path in g.at && path in g.fields then g.fields[path].typePkg
    else t.loaded[path].typePkg
  }

  /** Between two stages a target was dealt with, and the same packages are being visited. */
  ghost predicate Visited(t: Task, g: Stage, g': Stage, path: string) {
    Progressed(t, g') && Extends(t, g, g') && g'.InProgress() == g.InProgress() && Known(t, g', path)
  }

  lemma BuiltVisited(t: Task, g: Stage, path: string)
    requires Progressed(t, g) && path in t.targets && Get(g.state, path) == Some(Built)
    ensures Visited(t, g, g, path) && path in g.built && g.built[path] == PackageOf(t, g, path)
  {
    assert Fits(t, g, path);
  }

  lemma MarkVisits(t: Task, g: Stage, path: string)
    requires Progressed(t, g) && path in t.targets && Get(g.state, path) == Some(Visiting)
    ensures Visited(t, g, Marked(g, path), path)
    ensures Marked(g, path).fields[path].typePkg == PackageOf(t, Marked(g, path), path)
  {
    MarkKeeps(t, g, path);
  }

  lemma DropVisits(t: Task, g: Stage, path: string)
    requires Progressed(t, g) && path in t.targets && !g.fields[path].Usable()
    requires Get(g.state, path) == None
    ensures Visited(t, g, Emptied(g, path), path) && PackageOf(t, Emptied(g, path), path) == None
  {
    DropKeeps(t, g, path);
  }

  lemma CheckVisits(t: Task, g: Stage, ready: Stage, path: string, r: CheckResult)
    requires Progressed(t, g) && path in t.targets && Get(g.state, path) == None && g.fields[path].Usable()
    requires Progressed(t, ready) && Extends(t, Entered(g, path), ready) &&
      ready.InProgress() == Entered(g, path).InProgress()
    requires r == t.world.check(path, t.world.sources[path].files, ImportsAt(t, ready.fields, ready.at, path))
    requires BackOnly(t, ready.at, path)
    ensures Visited(t, g, Finished(ready, path, r), path)
  {
    var entered, after := Entered(g, path), Finished(ready, path, r);
    EnterKeeps(t, g, path);
    FinishKeeps(t, ready, path, r);
    ExtendsOn(t, g, entered, ready);
    ExtendsOn(t, g, ready, after);
    BackAsBefore(g.InProgress(), entered.InProgress(), after.InProgress(), path);
    assert path in after.at && Known(t, after, path) by { FinishFits(t, ready, path, r); }
  }

  lemma BackAsBefore(before: set<string>, during: set<string>, after: set<string>, path: string)
    requires path !in before && during == before + {path} && after == during - {path}
    ensures after == before
  {
  }

  lemma FinishedPackage(t: Task, g: Stage, path: string, r: CheckResult)
    requires path in g.fields && t.Usable(path)
    ensures Finished(g, path, r).built[path] == PackageOf(t, Finished(g, path, r), path)
  {
  }

  class SnapshotBuilder {
    const world: World
    const targets: set<string>
    ghost const loaded: map<string, Snapshot>
    var fields: map<string, Snapshot>               // the type information every package carries now
    var state: map<string, Progress>
    var built: map<string, Option<TypePackage>>
    ghost var at: map<string, nat>                  // when each target was finished
    ghost var clock: nat

    ghost function Job(): Task { Task(world, targets, loaded) }

    ghost function Now(): Stage
      reads this
    {
      Stage(fields, state, built, at, clock)
    }

    ghost predicate Valid()
      reads this
    {
      Progressed(Job(), Now())
    }

    constructor (world: World, targets: set<string>, fields: map<string, Snapshot>)
      requires targets <= fields.Keys && targets <= world.sources.Keys
      ensures Valid() && state == map[]
      ensures this.world == world && this.targets == targets && this.fields == loaded == fields
    {
      this.world, this.targets, this.fields, this.loaded := world, targets, fields, fields;
      state, built, at, clock := map[], map[], map[], 0;
    }

    /** Rebuilds a target after its imports, on any import graph. A package that is met while it is being
        visited is marked, and its loaded package is used. */
    method Rebuild(path: string) returns (checked: Option<TypePackage>)
      requires Valid() && path in targets
      requires forall other :: other in Now().InProgress() ==> Job().Leads(other, path)
      modifies this
      ensures Visited(Job(), old(Now()), Now(), path) && checked == PackageOf(Job(), Now(), path)
      decreases targets - Now().InProgress(), 1
    {
      assert path in state ==> state[path].Visiting? || state[path].Built?;
      if Get(state, path) == Some(Built) {
        BuiltVisited(Job(), Now(), path);
        return built[path];
      }
      if Get(state, path) == Some(Visiting) {
        MarkVisits(Job(), Now(), path);
        Mark(path);
        return fields[path].typePkg;
      }
      if !fields[path].Usable() {
        DropVisits(Job(), Now(), path);
        Drop(path);
        return None;
      }
      checked := CheckOne(path);
    }

    method Mark(path: string)
      requires path in fields
      modifies this`fields
      ensures Now() == Marked(old(Now()), path)
    {
      fields := fields[path := fields[path].(complete := false, reason := CYCLE)];
    }

    method Drop(path: string)
      requires path in fields
      modifies this`fields
      ensures Now() == Emptied(old(Now()), path)
    {
      fields := fields[path := fields[path].Dropped()];
    }

    method Enter(path: string)
      requires path in fields
      modifies this`fields, this`state
      ensures Now() == Entered(old(Now()), path)
    {
      fields := fields[path := fields[path].(rebuilds := fields[path].rebuilds + 1)];
      state := state[path := Visiting];
    }

    method Leave(path: string, result: CheckResult)
      requires path in fields
      modifies this
      ensures Now() == Finished(old(Now()), path, result)
    {
      fields := fields[path := Outcome(result, fields[path].rebuilds)];
      built := built[path := result.checked];
      state := state[path := Built];
      at := at[path := clock];
      clock := clock + 1;
    }

    /** Checks a target that has not been visited yet. */
    method CheckOne(path: string) returns (checked: Option<TypePackage>)
      requires Valid() && path in targets && Get(state, path) == None && fields[path].Usable()
      requires forall other :: other in Now().InProgress() ==> Job().Leads(other, path)
      modifies this
      ensures Visited(Job(), old(Now()), Now(), path) && checked == PackageOf(Job(), Now(), path)
      decreases targets - Now().InProgress(), 0
    {
      ghost var start := Now();
      EnterKeeps(Job(), start, path);
      Enter(path);
      var resolved := ResolveImports(path);
      var result := world.check(path, world.sources[path].files, resolved);
      CheckVisits(Job(), start, Now(), path, result);
      FinishedPackage(Job(), Now(), path, result);
      Leave(path, result);
      checked := built[path];
    }

    /** What the checker asks its importer for, in the order of the import declarations. */
    method ResolveImports(path: string) returns (resolved: map<string, Option<TypePackage>>)
      requires Valid() && path in targets && path in Now().InProgress()
      requires forall other :: other in Now().InProgress() ==> other == path || Job().Leads(other, path)
      modifies this
      ensures Valid() && Extends(Job(), old(Now()), Now()) && Now().InProgress() == old(Now().InProgress())
      ensures resolved == ImportsAt(Job(), fields, at, path) && BackOnly(Job(), at, path)
      decreases targets - Now().InProgress(), 3
    {
      var imports := world.sources[path].fileImports;
      ghost var start := Now();
      resolved := map[];
      ImportsAll(Job(), fields, at, path);
      for i := 0 to |imports|
        invariant Extends(Job(), start, Now()) && Now().InProgress() == start.InProgress()
        invariant ImportsDone(Job(), Now(), path, i, resolved)
      {
        ghost var before := Now();
        var found := ResolveOne(path, imports[i]);
        ExtendsOn(Job(), start, before, Now());
        ImportsStep(Job(), before, Now(), path, i, resolved, found);
        resolved := resolved[imports[i] := found];
      }
      ImportsAll(Job(), fields, at, path);
      KnownBackOnly(Job(), Now(), path, resolved);
    }

    /** A target is rebuilt first; any other import is taken as loaded. */
    method ResolveOne(path: string, imported: string) returns (found: Option<TypePackage>)
      requires Valid() && path in targets && path in Now().InProgress() && imported in world.sources[path].fileImports
      requires forall other :: other in Now().InProgress() ==> other == path || Job().Leads(other, path)
      modifies this
      ensures Valid() && Extends(Job(), old(Now()), Now()) && Now().InProgress() == old(Now().InProgress())
      ensures found == ResolveAt(Job(), fields, at, path, imported)
      ensures Job().Imports(path, imported) ==> Known(Job(), Now(), imported)
      decreases targets - Now().InProgress(), 2
    {
      if imported in targets && imported != "" {
        LeadsDirectly(Job(), path, imported);
        forall other | other in Now().InProgress() ensures Job().Leads(other, imported) {
          if other != path { LeadsOn(Job(), other, path, imported); }
        }
        found := Rebuild(imported);
        assert Fits(Job(), Now(), path);
      } else {
        found := Get(world.sources[path].typeImports, imported);
      }
    }

    /** All targets, in whatever order they are given, on any import graph. */
    method RebuildAll(order: seq<string>)
      requires Valid() && state == map[]
      requires forall path :: path in order <==> path in targets
      modifies this
      ensures fields.Keys == loaded.Keys && Grounded(Job(), fields, at)
      ensures forall path :: path in fields && path !in targets ==> fields[path] == loaded[path]
    {
      for i := 0 to |order|
        invariant Valid() && Now().InProgress() == {}
        invariant forall k :: 0 <= k < i ==> Known(Job(), Now(), order[k])
      {
        assert order[i] in order;
        ghost var before := Now();
        var _ := Rebuild(order[i]);
        forall k | 0 <= k < i ensures Known(Job(), Now(), order[k]) {
          assert order[k] in order && Fits(Job(), before, order[k]);
        }
      }
      AllGrounded(Job(), Now());
    }
  }

  // ---------- All or nothing ----------

  /** The package was complete as loaded and is not any more. */
  predicate LostCompleteness(loaded: map<string, Snapshot>, now: map<string, Snapshot>, path: string) {
    path in loaded && path in now && loaded[path].complete && !now[path].complete
  }

  /** `path` is the first of the candidates that lost completeness. */
  ghost predicate FirstLost(candidates: seq<string>, loaded: map<string, Snapshot>, now: map<string, Snapshot>,
                            path: string)
  {
    exists k :: 0 <= k < |candidates| && candidates[k] == path && LostCompleteness(loaded, now, path)
      && forall j :: 0 <= j < k ==> !LostCompleteness(loaded, now, candidates[j])
  }

  ghost predicate SomeLost(candidates: seq<string>, loaded: map<string, Snapshot>, now: map<string, Snapshot>) {
    exists path :: path in candidates && LostCompleteness(loaded, now, path)
  }

  method FirstFailure(candidates: seq<string>, loaded: map<string, Snapshot>,
                      now: map<string, Snapshot>)
    returns (failure: Option<string>)
    ensures failure.Some? <==> SomeLost(candidates, loaded, now)
    ensures failure.Some? ==> FirstLost(candidates, loaded, now, failure.value)
  {
    for i := 0 to |candidates|
      invariant forall k :: 0 <= k < i ==> !LostCompleteness(loaded, now, candidates[k])
    {
      if LostCompleteness(loaded, now, candidates[i]) {
        assert candidates[i] in candidates;
        return Some(candidates[i]);
      }
    }
    return None;
  }

  function Paths(paths: seq<string>): set<string> { set path | path in paths }

  /** A target after the rollback: as loaded, with the reason kept only for the package named. */
  function RolledBack(loaded: Snapshot, graph: Snapshot, named: bool): Snapshot {
    loaded.(reason := if named then graph.reason else "", rebuilds := graph.rebuilds)
  }

  /** The package to blame: the first changed one that lost completeness, or else the first target in
      load order that did. */
  ghost predicate Blamed(changed: seq<string>, order: seq<string>, loaded: map<string, Snapshot>,
                         now: map<string, Snapshot>, path: string)
  {
    if SomeLost(changed, loaded, now) then FirstLost(changed, loaded, now, path)
    else FirstLost(order, loaded, now, path)
  }

  /** A changed package that failed is named before an importer that failed with it. */
  method NameFailure(changed: seq<string>, order: seq<string>, loaded: map<string, Snapshot>,
                     now: map<string, Snapshot>)
    returns (failure: Option<string>)
    requires forall path :: path in changed ==> path in order
    ensures failure.Some? <==> SomeLost(order, loaded, now)
    ensures failure.Some? ==> Blamed(changed, order, loaded, now, failure.value)
  {
    failure := FirstFailure(changed, loaded, now);
    if failure.None? {
      failure := FirstFailure(order, loaded, now);
    }
  }

  lemma BlamedInOrder(changed: seq<string>, order: seq<string>, loaded: map<string, Snapshot>,
                      now: map<string, Snapshot>, path: string)
    requires Blamed(changed, order, loaded, now, path) && forall p :: p in changed ==> p in order
    ensures path in order && LostCompleteness(loaded, now, path)
  {
    if SomeLost(changed, loaded, now) {
      assert path in changed;
    }
  }

  /** A target that was complete, and whose check was not clean. */
  ghost predicate Failed(t: Task, graph: map<string, Snapshot>, at: map<string, nat>, path: string)
    requires t.Valid() && t.targets <= graph.Keys && path in t.targets
  {
    t.loaded[path].complete && !CheckedClean(t, graph, at, path)
  }

  lemma FailedMeans(t: Task, graph: map<string, Snapshot>, at: map<string, nat>, path: string)
    requires Grounded(t, graph, at) && path in t.targets
    ensures Failed(t, graph, at, path) <==> LostCompleteness(t.loaded, graph, path)
  {
    CarriesItsCheck(t, graph, at, path);
  }

  /** The package to blame in terms of the checker: the first changed one, in the order given, that was complete
      and whose check failed; or, when every changed one checked clean, the first such target in load order. */
  lemma NamedFirst(t: Task, graph: map<string, Snapshot>, at: map<string, nat>, changed: seq<string>, path: string)
    requires t.world.Valid() && Grounded(t, graph, at) && Paths(changed) <= t.targets
    requires Blamed(changed, InOrder(t.world.order, t.targets), t.loaded, graph, path)
    ensures path in t.targets && Failed(t, graph, at, path)
    ensures (exists p :: p in Paths(changed) && Failed(t, graph, at, p)) ==>
      exists k :: 0 <= k < |changed| && changed[k] == path && NoneFailed(t, graph, at, changed[..k])
    ensures (forall p :: p in Paths(changed) ==> !Failed(t, graph, at, p)) ==>
      forall p :: p in t.targets && Failed(t, graph, at, p) ==> p == path || InLoadOrder(t.world.order, path, p)
  {
    var order := InOrder(t.world.order, t.targets);
    InOrderMembers(t.world.order, t.targets);
    forall p | p in t.targets
      ensures Failed(t, graph, at, p) <==> LostCompleteness(t.loaded, graph, p)
    {
      FailedMeans(t, graph, at, p);
    }
    assert forall p :: p in changed ==> p in t.targets;
    assert forall p :: p in order ==> p in t.targets;
    BlamedInOrder(changed, order, t.loaded, graph, path);
    if SomeLost(changed, t.loaded, graph) {
      var k :| 0 <= k < |changed| && changed[k] == path && LostCompleteness(t.loaded, graph, path)
        && forall j :: 0 <= j < k ==> !LostCompleteness(t.loaded, graph, changed[j]);
      assert NoneFailed(t, graph, at, changed[..k]);
    } else {
      var k :| 0 <= k < |order| && order[k] == path && LostCompleteness(t.loaded, graph, path)
        && forall j :: 0 <= j < k ==> !LostCompleteness(t.loaded, graph, order[j]);
      forall p | p in t.targets && Failed(t, graph, at, p) ensures p == path || InLoadOrder(t.world.order, path, p) {
        assert p in order;
        var m :| 0 <= m < |order| && order[m] == p;
        if k < m { var x, y := InOrderKeepsOrder(t.world.order, t.targets, k, m); }
      }
    }
  }

  ghost predicate NoneFailed(t: Task, graph: map<string, Snapshot>, at: map<string, nat>, paths: seq<string>)
    requires t.Valid() && t.targets <= graph.Keys
  {
    forall p :: p in paths && p in t.targets ==> !Failed(t, graph, at, p)
  }

  method RollBack(fields: map<string, Snapshot>, graph: map<string, Snapshot>, order: seq<string>, failed: string)
    returns (after: map<string, Snapshot>)
    requires fields.Keys == graph.Keys && failed in order && forall path :: path in order ==> path in fields
    ensures after.Keys == fields.Keys
    ensures forall path :: path in order ==> after[path] == RolledBack(fields[path], graph[path], path == failed)
    ensures forall path :: path in fields && path !in order ==> after[path] == graph[path]
  {
    after := graph;
    for i := 0 to |order|
      invariant after.Keys == fields.Keys
      invariant forall path :: path in fields && path !in order[..i] ==> after[path] == graph[path]
      invariant forall path :: path in order[..i] ==> after[path] == RolledBack(fields[path], graph[path], false)
    {
      var path := order[i];
      assert path in order && order[..i + 1] == order[..i] + [path];
      after := after[path := fields[path].(reason := "", rebuilds := after[path].rebuilds)];
    }
    assert order[..|order|] == order;
    after := after[failed := after[failed].(reason := graph[failed].reason)];
  }

  /** Either the whole rebuilt graph is adopted, the coherent one if there are no import cycles, or every
      target goes back to its loaded snapshot and the target to blame is named. */
  method RebuildExcludedTypeSnapshots(w: World, fields: map<string, Snapshot>, changed: seq<string>)
    returns (after: map<string, Snapshot>, failure: Option<string>, targets: set<string>, graph: map<string, Snapshot>,
             ghost at: map<string, nat>)
    requires w.Valid() && fields.Keys == w.sources.Keys
    requires forall path :: path in changed ==> path in w.sources
    ensures LeastClosure(w, Paths(changed), targets)
    ensures Grounded(Task(w, targets, fields), graph, at) && graph.Keys == after.Keys == fields.Keys
    ensures forall rank :: Acyclic(Task(w, targets, fields), rank) ==> Coherent(Task(w, targets, fields), graph)
    ensures failure.None? <==> forall path :: path in targets && fields[path].complete ==>
      CheckedClean(Task(w, targets, fields), graph, at, path)
    ensures failure.None? ==> after == graph
    ensures failure.Some? ==>
      && failure.value in targets && fields[failure.value].complete
      && !CheckedClean(Task(w, targets, fields), graph, at, failure.value)
    ensures failure.Some? ==> Blamed(changed, InOrder(w.order, targets), fields, graph, failure.value)
    ensures failure.Some? ==> forall path :: path in targets ==>
      && after[path].info == fields[path].info && after[path].typePkg == fields[path].typePkg
      && after[path].complete == fields[path].complete && after[path].rebuilds == graph[path].rebuilds
      && after[path].reason == if path == failure.value then graph[path].reason else ""
    ensures forall path :: path in fields && path !in targets ==> after[path] == graph[path] == fields[path]
  {
    if changed == [] {
      after, failure, targets, graph, at := fields, None, {}, fields, map[];
      assert Paths(changed) == {} && LeastClosure(w, {}, {});
      assert Clocked(at, 0);
      return;
    }
    var rebuilt, order := TypeRebuildTargets(w, Paths(changed));
    targets := rebuilt;
    InOrderMembers(w.order, rebuilt);
    var builder := new SnapshotBuilder(w, rebuilt, fields);
    builder.RebuildAll(order);
    graph, after, at := builder.fields, builder.fields, builder.at;
    CoherentForEveryRank(Task(w, targets, fields), graph, at);
    assert forall path :: path in order <==> path in targets;
    failure := NameFailure(changed, order, fields, after);
    if failure.Some? { BlamedInOrder(changed, order, fields, graph, failure.value); }
    if failure.Some? {
      after := RollBack(fields, builder.fields, order, failure.value);
    }
    forall path | path in targets
      ensures LostCompleteness(fields, graph, path) <==>
        fields[path].complete && !CheckedClean(Task(w, targets, fields), graph, at, path)
    {
      CarriesItsCheck(Task(w, targets, fields), graph, at, path);
    }
  }

  lemma CoherentForEveryRank(t: Task, graph: map<string, Snapshot>, at: map<string, nat>)
    requires Grounded(t, graph, at)
    ensures forall rank :: Acyclic(t, rank) ==> Coherent(t, graph)
  {
    forall rank | Acyclic(t, rank) ensures Coherent(t, graph) {
      GroundedIsCoherent(t, rank, graph, at);
    }
  }

  /** The loader's and the checker's own promises: complete packages carry type information, and a
      check without an error yields a package. */
  ghost predicate Promised(t: Task) {
    && (forall path :: path in t.loaded && t.loaded[path].complete ==> t.Usable(path))
    && (forall path, files, imports ::
          t.world.check(path, files, imports).error == "" ==> t.world.check(path, files, imports).checked.Some?)
  }

  /** After a rollback exactly one target carries a reason; all carry what they were loaded with. */
  lemma OneReason(t: Task, graph: map<string, Snapshot>, at: map<string, nat>, after: map<string, Snapshot>,
                  failed: string)
    requires Promised(t) && Grounded(t, graph, at) && t.targets <= after.Keys
    requires failed in t.targets && LostCompleteness(t.loaded, graph, failed)
    requires forall path :: path in t.targets ==> after[path] == RolledBack(t.loaded[path], graph[path], path == failed)
    ensures forall path :: path in t.targets ==> (after[path].reason != "" <==> path == failed)
    ensures forall path :: path in t.targets ==>
      && after[path].info == t.loaded[path].info && after[path].typePkg == t.loaded[path].typePkg
      && after[path].complete == t.loaded[path].complete
  {
    assert GroundedAt(t, graph, at, failed);
  }

  /** Every target that was complete is type-checked exactly once, every other target not at all. */
  lemma CheckedOnce(t: Task, graph: map<string, Snapshot>, at: map<string, nat>, path: string)
    requires Grounded(t, graph, at) && path in t.targets
    ensures graph[path].rebuilds == t.loaded[path].rebuilds + (if t.Usable(path) then 1 else 0)
    ensures !t.Usable(path) ==> graph[path].typePkg.None? && !graph[path].complete
  {
    assert GroundedAt(t, graph, at, path);
  }
}
