/** Which injected fields are ever consumed: a memoised depth-first search over the flows between
    struct fields, whose memo entries are written while other fields are still being visited. */
module FieldFlows {
  import opened Options
  import opened Ordering

  datatype Field = Field(owner: string, name: string)

  /** One selector expression naming `field`. `flow` is the field its value is copied into, if the
      selector is only the right side of a field assignment or of a composite-literal entry. */
  datatype Selector = Selector(field: Field, flow: Option<Field>)

  /** What the syntax of a package says: its field selectors in walk order, and the fields whose
      receiver-less owner type is returned from some function. */
  datatype Source = Source(selectors: seq<Selector>, escaping: set<Field>) {

    ghost predicate Flows(a: Field, b: Field) { Selector(a, Some(b)) in selectors }

    /** Consumed on its own account: a use that is not a flow, or an escaping carrier. */
    ghost predicate Direct(f: Field) { f in escaping || Selector(f, None) in selectors }

    /** `b` is reached from `a` along exactly `n` flows. */
    ghost predicate ReachesIn(a: Field, b: Field, n: nat)
      decreases n
    {
      if n == 0 then a == b else exists c :: Flows(a, c) && ReachesIn(c, b, n - 1)
    }

    ghost predicate Reaches(a: Field, b: Field) { exists n: nat :: ReachesIn(a, b, n) }

    ghost predicate ReachesPlus(a: Field, b: Field) { exists n: nat :: n > 0 && ReachesIn(a, b, n) }

    /** The meaning of "consumed": some flow path leads to a direct use or into a cycle. */
    ghost predicate Live(f: Field) {
      exists g :: Reaches(f, g) && (Direct(g) || ReachesPlus(g, g))
    }

    ghost function Mentioned(): set<Field> { set s | s in selectors :: s.field }

    lemma {:induction false} Compose(a: Field, b: Field, c: Field, m: nat, n: nat)
      requires ReachesIn(a, b, m) && ReachesIn(b, c, n)
      ensures ReachesIn(a, c, m + n)
      decreases m
    {
      if m == 0 {
      } else {
        var d :| Flows(a, d) && ReachesIn(d, b, m - 1);
        Compose(d, b, c, m - 1, n);
        assert Flows(a, d) && ReachesIn(d, c, m + n - 1);
      }
    }

    lemma Step(a: Field, b: Field)
      requires Flows(a, b)
      ensures ReachesPlus(a, b)
    {
      assert ReachesIn(b, b, 0);
      assert ReachesIn(a, b, 1);
    }

    lemma Extend(a: Field, b: Field, c: Field)
      requires ReachesPlus(a, b) && Flows(b, c)
      ensures ReachesPlus(a, c)
    {
      var n: nat :| n > 0 && ReachesIn(a, b, n);
      assert ReachesIn(c, c, 0);
      assert ReachesIn(b, c, 1);
      Compose(a, b, c, n, 1);
    }

    lemma LiveWhenDirectOrCyclic(f: Field)
      requires Direct(f) || ReachesPlus(f, f)
      ensures Live(f)
    {
      assert ReachesIn(f, f, 0);
      assert Reaches(f, f);
    }

    lemma LiveBackwards(f: Field, d: Field)
      requires Flows(f, d) && Live(d)
      ensures Live(f)
    {
      var g :| Reaches(d, g) && (Direct(g) || ReachesPlus(g, g));
      var n: nat :| ReachesIn(d, g, n);
      assert ReachesIn(f, g, n + 1);
      assert Reaches(f, g);
    }

    /** Liveness is decided one flow at a time, even though the flows may be cyclic. */
    lemma LiveOneStep(f: Field)
      ensures Live(f) <==> Direct(f) || exists d :: Flows(f, d) && Live(d)
    {
      if Live(f) && !Direct(f) {
        var g :| Reaches(f, g) && (Direct(g) || ReachesPlus(g, g));
        var n: nat :| ReachesIn(f, g, n);
        if n > 0 {
          var d :| Flows(f, d) && ReachesIn(d, g, n - 1);
          assert Reaches(d, g);
          assert Live(d);
        } else {
          var m: nat :| m > 0 && ReachesIn(f, f, m);
          var d :| Flows(f, d) && ReachesIn(d, f, m - 1);
          assert Reaches(d, f);
          assert Live(d);
        }
      }
      if Direct(f) {
        LiveWhenDirectOrCyclic(f);
      } else if exists d :: Flows(f, d) && Live(d) {
        var d :| Flows(f, d) && Live(d);
        LiveBackwards(f, d);
      }
    }
  }

  /** The selectors of each field, in walk order: what indexing computes. */
  ghost function SelectorsOf(all: seq<Selector>, f: Field): seq<Selector> {
    if all == [] then []
    else SelectorsOf(all[..|all| - 1], f) + (if all[|all| - 1].field == f then [all[|all| - 1]] else [])
  }

  lemma SelectorsNext(all: seq<Selector>, i: nat, f: Field)
    requires i < |all|
    ensures SelectorsOf(all[..i + 1], f)
      == if all[i].field == f then SelectorsOf(all[..i], f) + [all[i]] else SelectorsOf(all[..i], f)
  {
    assert all[..i + 1][..i] == all[..i];
  }

  function Uses(selectors: map<Field, seq<Selector>>, f: Field): seq<Selector> {
    if f in selectors then selectors[f] else []
  }

  /** The index so far: each field maps to its selectors among those walked. */
  ghost predicate Indexed(selectors: map<Field, seq<Selector>>, walked: seq<Selector>) {
    forall f :: Uses(selectors, f) == SelectorsOf(walked, f)
  }

  lemma UsesNext(selectors: map<Field, seq<Selector>>, all: seq<Selector>, i: nat)
    requires i < |all| && Indexed(selectors, all[..i])
    ensures Indexed(selectors[all[i].field := Uses(selectors, all[i].field) + [all[i]]], all[..i + 1])
  {
    var after := selectors[all[i].field := Uses(selectors, all[i].field) + [all[i]]];
    forall f ensures Uses(after, f) == SelectorsOf(all[..i + 1], f) {
      SelectorsNext(all, i, f);
      assert Uses(selectors, f) == SelectorsOf(all[..i], f);
    }
  }

  lemma {:induction false} SelectorsOfMembers(all: seq<Selector>, f: Field)
    ensures forall s :: s in SelectorsOf(all, f) <==> s in all && s.field == f
  {
    if all == [] {
    } else {
      SelectorsOfMembers(all[..|all| - 1], f);
      assert all == all[..|all| - 1] + [all[|all| - 1]];
    }
  }

  class DependencyFieldFlows {
    const source: Source
    var indexed: bool
    var selectors: map<Field, seq<Selector>>
    var memo: map<Field, bool>
    var visiting: set<Field>

    ghost predicate Valid()
      reads this
    {
      && (indexed ==> forall f :: Uses(selectors, f) == SelectorsOf(source.selectors, f))
      && (forall f :: f in memo ==> memo[f] == source.Live(f))
      && memo.Keys !! visiting
    }

    constructor (source: Source)
      ensures Valid() && this.source == source && visiting == {} && memo == map[]
    {
      this.source := source;
      indexed, selectors, memo, visiting := false, map[], map[], {};
    }

    method Index()
      requires Valid()
      modifies this`indexed, this`selectors
      ensures Valid() && indexed
    {
      if indexed {
        return;
      }
      indexed := true;
      selectors := map[];
      for i := 0 to |source.selectors|
        invariant indexed
        invariant Indexed(selectors, source.selectors[..i])
      {
        var s := source.selectors[i];
        UsesNext(selectors, source.selectors, i);
        selectors := selectors[s.field := Uses(selectors, s.field) + [s]];
      }
      assert source.selectors[..|source.selectors|] == source.selectors;
    }

    /** Exact on every graph, cyclic ones included. While other fields are being visited, each of
        them reaches `field`; a top-level query has none. */
    method Consumed(field: Field) returns (consumed: bool)
      requires Valid()
      requires forall v :: v in visiting ==> source.ReachesPlus(v, field)
      modifies this
      ensures Valid() && visiting == old(visiting)
      ensures consumed == source.Live(field)
      ensures forall f :: f in old(memo) ==> f in memo && memo[f] == old(memo)[f]
      decreases source.Mentioned() - visiting, 1
    {
      Index();
      if field in source.escaping {
        source.LiveWhenDirectOrCyclic(field);
        return true;
      }
      if field in memo {
        return memo[field];
      }
      if field in visiting {
        source.LiveWhenDirectOrCyclic(field);
        return true;
      }
      visiting := visiting + {field};
      var deferred;
      SelectorsOfMembers(source.selectors, field);
      consumed, deferred := ScanUses(source, field, Uses(selectors, field));
      if !consumed {
        forall v, d | v in visiting && d in deferred ensures source.ReachesPlus(v, d) {
          if v == field { source.Step(field, d); } else { source.Extend(v, field, d); }
        }
        consumed := FollowFlows(field, deferred);
      } else {
        source.LiveWhenDirectOrCyclic(field);
      }
      visiting := visiting - {field};
      memo := memo[field := consumed];
    }

    /** The loop over a field's own selectors: stops at a direct use, otherwise gathers all flows. */
    static method ScanUses(source: Source, field: Field, uses: seq<Selector>)
      returns (consumed: bool, deferred: set<Field>)
      requires field !in source.escaping
      requires forall s :: s in uses <==> s in source.selectors && s.field == field
      ensures consumed == source.Direct(field)
      ensures forall d :: d in deferred ==> source.Flows(field, d)
      ensures !consumed ==> forall d :: source.Flows(field, d) ==> d in deferred
    {
      deferred := {};
      for i := 0 to |uses|
        invariant forall k :: 0 <= k < i ==> uses[k].flow.Some? && uses[k].flow.value in deferred
        invariant forall d :: d in deferred ==> Selector(field, Some(d)) in uses
      {
        var selector := uses[i];
        assert selector in uses;
        if selector.flow.Some? {
          deferred := deferred + {selector.flow.value};
          continue;
        }
        return true, deferred;
      }
      consumed := false;
    }

    /** The loop over the flows of a field being visited, in whatever order the map yields them. */
    method FollowFlows(field: Field, deferred: set<Field>) returns (consumed: bool)
      requires Valid() && field in visiting && !source.Direct(field)
      requires forall d :: d in deferred <==> source.Flows(field, d)
      requires forall v, d :: v in visiting && d in deferred ==> source.ReachesPlus(v, d)
      modifies this
      ensures Valid() && visiting == old(visiting)
      ensures consumed == source.Live(field)
      ensures forall f :: f in old(memo) ==> f in memo && memo[f] == old(memo)[f]
      decreases source.Mentioned() - (visiting - {field}), 0
    {
      var left := deferred;
      while left != {}
        invariant Valid() && visiting == old(visiting)
        invariant left <= deferred
        invariant forall d :: d in deferred && d !in left ==> !source.Live(d)
        invariant forall f :: f in old(memo) ==> f in memo && memo[f] == old(memo)[f]
        decreases left
      {
        var destination :| destination in left;
        left := left - {destination};
        assert field in source.Mentioned() by {
          assert Selector(field, Some(destination)) in source.selectors;
        }
        consumed := Consumed(destination);
        if consumed {
          source.LiveBackwards(field, destination);
          return;
        }
      }
      consumed := false;
      source.LiveOneStep(field);
    }

    /** The caller's loop: of the candidate fields, in order, those that no flow path consumes. */
    method Unused(candidates: seq<Field>) returns (unused: seq<Field>)
      requires Valid() && visiting == {}
      modifies this
      ensures Valid() && visiting == {}
      ensures unused == Dead(source, candidates)
    {
      unused := [];
      for i := 0 to |candidates|
        invariant Valid() && visiting == {}
        invariant unused == Dead(source, candidates[..i])
      {
        assert candidates[..i + 1][..i] == candidates[..i];
        var consumed := Consumed(candidates[i]);
        if !consumed {
          unused := unused + [candidates[i]];
        }
      }
      assert candidates[..|candidates|] == candidates;
    }
  }

  ghost function Dead(source: Source, candidates: seq<Field>): seq<Field> {
    if candidates == [] then []
    else
      var last := candidates[|candidates| - 1];
      Dead(source, candidates[..|candidates| - 1]) + (if source.Live(last) then [] else [last])
  }

  /** A field is unused exactly when its flows lead nowhere: no direct use and no cycle is reachable. */
  lemma {:induction false} DeadMembers(source: Source, candidates: seq<Field>)
    ensures forall f :: f in Dead(source, candidates) <==>
      f in candidates && forall g :: source.Reaches(f, g) ==> !source.Direct(g) && !source.ReachesPlus(g, g)
  {
    if candidates == [] {
    } else {
      DeadMembers(source, candidates[..|candidates| - 1]);
      assert candidates == candidates[..|candidates| - 1] + [candidates[|candidates| - 1]];
    }
  }

  /** The unused fields are those candidates that are not live, each as often and in the order given. */
  lemma {:induction false} DeadInOrder(source: Source, candidates: seq<Field>)
    ensures Picked(candidates, (f: Field) => !source.Live(f), Dead(source, candidates))
  {
    if candidates == [] {
      PickedNone((f: Field) => !source.Live(f));
    } else {
      var init, last := candidates[..|candidates| - 1], candidates[|candidates| - 1];
      DeadInOrder(source, init);
      PickedSnoc(init, (f: Field) => !source.Live(f), Dead(source, init), last);
      assert candidates == init + [last];
    }
  }

  // ---------- Liveness in terms of the selectors alone ----------

  /** Each field of the path is copied into the next by some selector. */
  ghost predicate FlowPath(source: Source, path: seq<Field>) {
    path != [] && forall i :: 0 <= i < |path| - 1 ==> Selector(path[i], Some(path[i + 1])) in source.selectors
  }

  /** The path ends in an escaping field, in a selector that is no flow, or in a field it has passed before. */
  ghost predicate EndsInUse(source: Source, path: seq<Field>)
    requires path != []
  {
    var last := path[|path| - 1];
    last in source.escaping || Selector(last, None) in source.selectors || last in path[..|path| - 1]
  }

  lemma {:induction false} PathOf(source: Source, a: Field, b: Field, n: nat) returns (path: seq<Field>)
    requires source.ReachesIn(a, b, n)
    ensures |path| == n + 1 && FlowPath(source, path) && path[0] == a && path[n] == b
    decreases n
  {
    if n == 0 {
      path := [a];
    } else {
      var c :| source.Flows(a, c) && source.ReachesIn(c, b, n - 1);
      var rest := PathOf(source, c, b, n - 1);
      path := [a] + rest;
    }
  }

  lemma {:induction false} ReachAlong(source: Source, path: seq<Field>, i: nat, j: nat)
    requires FlowPath(source, path) && i <= j < |path|
    ensures source.ReachesIn(path[i], path[j], j - i)
    decreases j - i
  {
    if i == j {
    } else {
      ReachAlong(source, path, i + 1, j);
      assert source.Flows(path[i], path[i + 1]);
    }
  }

  lemma {:induction false} UsePath(source: Source, f: Field) returns (path: seq<Field>)
    requires source.Live(f)
    ensures FlowPath(source, path) && path[0] == f && EndsInUse(source, path)
  {
    var g :| source.Reaches(f, g) && (source.Direct(g) || source.ReachesPlus(g, g));
    var m: nat :| source.ReachesIn(f, g, m);
    path := PathOf(source, f, g, m);
    if !source.Direct(g) {
      var n: nat :| n > 0 && source.ReachesIn(g, g, n);
      var cycle := PathOf(source, g, g, n);
      var first := path;
      path := first + cycle[1..];
      assert forall i :: m <= i < |path| ==> path[i] == cycle[i - m];
      assert path[..|path| - 1][m] == g;
    }
  }

  lemma PathIsLive(source: Source, path: seq<Field>)
    requires FlowPath(source, path) && EndsInUse(source, path)
    ensures source.Live(path[0])
  {
    var n := |path| - 1;
    ReachAlong(source, path, 0, n);
    assert source.Reaches(path[0], path[n]);
    if !source.Direct(path[n]) {
      var i :| 0 <= i < n && path[i] == path[n];
      ReachAlong(source, path, i, n);
      assert source.ReachesPlus(path[n], path[n]);
    }
  }

  /** A field is consumed exactly when its values are copied from field to field until a selector uses one
      other than by copying it, a carrier escapes, or the copying runs in a circle. */
  lemma ConsumedMeans(source: Source, f: Field)
    ensures source.Live(f) <==> exists path :: FlowPath(source, path) && path[0] == f && EndsInUse(source, path)
  {
    if source.Live(f) {
      var path := UsePath(source, f);
    }
    if path :| FlowPath(source, path) && path[0] == f && EndsInUse(source, path) {
      PathIsLive(source, path);
    }
  }
}
