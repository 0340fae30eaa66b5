/** Which foreign named types a signature mentions: a walk over types that visits each named type
    once, so that self-referential declarations end. */
module TypeWalk {
  import opened Options

  /** Types as the walk sees them. Named types are looked up in a table, so they may refer to
      themselves. `Opaque` is every kind the walk does not enter. */
  datatype Type =
    | Named(name: nat)
    | Pointer(elem: Type)
    | Slice(elem: Type)
    | Array(elem: Type)
    | Map(key: Type, elem: Type)
    | Chan(elem: Type)
    | Signature(params: seq<Type>, results: seq<Type>)
    | Opaque
    | Absent

  /** A declared type: the package it belongs to, if any, its qualified name, its underlying type. */
  datatype Declaration = Declaration(package: Option<string>, qualified: string, underlying: Type)

  type Table = map<nat, Declaration>

  // ---------- The specification: reachability ----------

  /** The named types a type mentions without going through another named type. */
  ghost function Mentions(t: Type): set<nat> {
    match t
    case Named(n) => {n}
    case Pointer(e) => Mentions(e)
    case Slice(e) => Mentions(e)
    case Array(e) => Mentions(e)
    case Map(k, e) => Mentions(k) + Mentions(e)
    case Chan(e) => Mentions(e)
    case Signature(ps, rs) => MentionsAll(ps) + MentionsAll(rs)
    case Opaque => {}
    case Absent => {}
  }

  ghost function MentionsAll(ts: seq<Type>): set<nat> {
    if ts == [] then {} else Mentions(ts[0]) + MentionsAll(ts[1..])
  }

  /** All named types met from a type or from the declarations in the table are declared. */
  ghost predicate Declared(table: Table, t: Type) {
    Mentions(t) <= table.Keys && forall n :: n in table ==> Mentions(table[n].underlying) <= table.Keys
  }

  /** `n` is mentioned by `t`, or by the underlying type of a named type reached before. */
  ghost predicate ReachedIn(table: Table, t: Type, n: nat, steps: nat)
    decreases steps
  {
    n in Mentions(t) ||
    (steps > 0 && exists m :: m in table && ReachedIn(table, t, m, steps - 1) && n in Mentions(table[m].underlying))
  }

  ghost predicate Reached(table: Table, t: Type, n: nat) { exists steps: nat :: ReachedIn(table, t, n, steps) }

  predicate Foreign(table: Table, home: string, n: nat) {
    n in table && table[n].package.Some? && table[n].package.value != home
  }

  /** The qualified names of the foreign types among `names`. */
  ghost function ForeignNames(table: Table, home: string, names: set<nat>): set<string> {
    set n | n in names && Foreign(table, home, n) :: table[n].qualified
  }

  ghost function ReachableForeign(table: Table, home: string, t: Type): set<string> {
    set n | n in table && Reached(table, t, n) && Foreign(table, home, n) :: table[n].qualified
  }

  /** Whatever is mentioned by the type and closed under declarations holds all that is reached. */
  lemma {:induction false} ClosedHoldsReached(table: Table, t: Type, s: set<nat>, n: nat, steps: nat)
    requires Mentions(t) <= s && (forall m :: m in s && m in table ==> Mentions(table[m].underlying) <= s)
    requires ReachedIn(table, t, n, steps)
    ensures n in s
    decreases steps
  {
    if n in Mentions(t) {
    } else {
      var m :| m in table && ReachedIn(table, t, m, steps - 1) && n in Mentions(table[m].underlying);
      ClosedHoldsReached(table, t, s, m, steps - 1);
    }
  }

  lemma ReachNext(table: Table, t: Type, m: nat, n: nat)
    requires m in table && Reached(table, t, m) && n in Mentions(table[m].underlying)
    ensures Reached(table, t, n)
  {
    var steps: nat :| ReachedIn(table, t, m, steps);
    assert ReachedIn(table, t, n, steps + 1);
  }

  lemma ReachMentioned(table: Table, t: Type, n: nat)
    requires n in Mentions(t)
    ensures Reached(table, t, n)
  {
    assert ReachedIn(table, t, n, 0);
  }

  // ---------- Reachability in terms of the types alone ----------

  /** One step into a type: to what it points to, holds, maps from or to, sends, takes or returns. */
  predicate Component(whole: Type, part: Type) {
    || whole in [Pointer(part), Slice(part), Array(part), Chan(part)]
    || (whole.Map? && (whole.key == part || whole.elem == part))
    || (whole.Signature? && (part in whole.params || part in whole.results))
  }

  /** A step into a type, or from a named type to its declaration. */
  predicate TypeStep(table: Table, source: Type, target: Type) {
    Component(source, target) || (source.Named? && source.name in table && table[source.name].underlying == target)
  }

  ghost predicate TypePath(table: Table, path: seq<Type>, t: Type, n: nat) {
    && path != [] && path[0] == t && path[|path| - 1] == Named(n)
    && forall k :: 0 <= k < |path| - 1 ==> TypeStep(table, path[k], path[k + 1])
  }

  lemma PrependPath(table: Table, t: Type, rest: seq<Type>, u: Type, n: nat)
    requires TypePath(table, rest, u, n) && TypeStep(table, t, u)
    ensures TypePath(table, [t] + rest, t, n)
  {
  }

  lemma {:induction false} MentionPath(table: Table, t: Type, n: nat) returns (path: seq<Type>)
    requires n in Mentions(t)
    ensures TypePath(table, path, t, n)
    decreases t
  {
    if t.Named? {
      return [t];
    }
    var part := MentioningPart(t, n);
    path := MentionPath(table, part, n);
    PrependPath(table, t, path, part, n);
    path := [t] + path;
  }

  lemma {:induction false} MentioningPart(t: Type, n: nat) returns (part: Type)
    requires n in Mentions(t) && !t.Named?
    ensures Component(t, part) && n in Mentions(part) && part < t
  {
    match t
    case Pointer(e) => part := e;
    case Slice(e) => part := e;
    case Array(e) => part := e;
    case Map(k, e) => part := if n in Mentions(k) then k else e;
    case Chan(e) => part := e;
    case Signature(ps, rs) => part := MentioningElement(if n in MentionsAll(ps) then ps else rs, n);
  }

  lemma {:induction false} MentioningElement(ts: seq<Type>, n: nat) returns (part: Type)
    requires n in MentionsAll(ts)
    ensures part in ts && n in Mentions(part)
  {
    if n in Mentions(ts[0]) {
      part := ts[0];
    } else {
      part := MentioningElement(ts[1..], n);
    }
  }

  lemma {:induction false} ComponentMentions(whole: Type, part: Type)
    requires Component(whole, part)
    ensures Mentions(part) <= Mentions(whole)
  {
    if whole.Signature? {
      if part in whole.params {
        var i :| 0 <= i < |whole.params| && whole.params[i] == part;
        MentionsElement(whole.params, i);
      } else {
        var i :| 0 <= i < |whole.results| && whole.results[i] == part;
        MentionsElement(whole.results, i);
      }
    }
  }

  lemma {:induction false} ReachPath(table: Table, t: Type, n: nat, steps: nat) returns (path: seq<Type>)
    requires ReachedIn(table, t, n, steps)
    ensures TypePath(table, path, t, n)
    decreases steps
  {
    if n in Mentions(t) {
      path := MentionPath(table, t, n);
    } else {
      var m :| m in table && ReachedIn(table, t, m, steps - 1) && n in Mentions(table[m].underlying);
      var first := ReachPath(table, t, m, steps - 1);
      var rest := MentionPath(table, table[m].underlying, n);
      path := first + rest;
    }
  }

  lemma {:induction false} PathReaches(table: Table, t: Type, path: seq<Type>, u: Type, n: nat)
    requires TypePath(table, path, u, n) && forall m :: m in Mentions(u) ==> Reached(table, t, m)
    ensures Reached(table, t, n)
    decreases |path|
  {
    if |path| == 1 {
      assert n in Mentions(u);
    } else {
      if Component(u, path[1]) {
        ComponentMentions(u, path[1]);
      } else {
        forall m | m in Mentions(path[1]) ensures Reached(table, t, m) { ReachNext(table, t, u.name, m); }
      }
      PathReaches(table, t, path[1..], path[1], n);
    }
  }

  /** The names found are exactly the qualified names of types declared in another package that a path leads
      to, step by step into types and from named types to their declarations. */
  lemma {:induction false} ReachableMeans(table: Table, home: string, t: Type, name: string)
    ensures name in ReachableForeign(table, home, t) <==> exists path, n: nat ::
      TypePath(table, path, t, n) && DeclaredElsewhere(table, home, n, name)
  {
    if name in ReachableForeign(table, home, t) {
      var n :| n in table && Reached(table, t, n) && Foreign(table, home, n) && table[n].qualified == name;
      var steps: nat :| ReachedIn(table, t, n, steps);
      var path := ReachPath(table, t, n, steps);
      assert DeclaredElsewhere(table, home, n, name);
    }
    if path, n: nat :| TypePath(table, path, t, n) && DeclaredElsewhere(table, home, n, name) {
      forall m | m in Mentions(t) ensures Reached(table, t, m) { ReachMentioned(table, t, m); }
      PathReaches(table, t, path, t, n);
    }
  }

  ghost predicate DeclaredElsewhere(table: Table, home: string, n: nat, name: string) {
    n in table && table[n].qualified == name && exists p :: table[n].package == Some(p) && p != home
  }

  // ---------- The walk ----------

  /** One call's state: the named types seen, and the foreign names found. */
  class Walk {
    const table: Table
    const home: string
    ghost const start: Type
    var seen: set<nat>
    var out: set<string>

    /** Everything seen is reachable from the start and its foreign names are recorded. */
    ghost predicate Valid()
      reads this
    {
      && Declared(table, start)
      && seen <= table.Keys
      && (forall n :: n in seen ==> Reached(table, start, n))
      && ForeignNames(table, home, seen) <= out
    }

    /** Named types seen since `before` have been walked to the end. */
    ghost predicate Finished(before: set<nat>)
      reads this
    {
      before <= seen && forall n :: n in seen && n !in before && n in table ==> Mentions(table[n].underlying) <= seen
    }

    constructor (table: Table, home: string, out: set<string>, ghost start: Type)
      requires Declared(table, start)
      ensures Valid() && seen == {} && this.out == out
      ensures this.table == table && this.home == home && this.start == start
    {
      this.table, this.home, this.start, this.out := table, home, start, out;
      seen := {};
    }

    /** After the walk of a type all it mentions is seen and finished, and only names of newly seen
        types were added. Ends because unseen named types or the type itself get fewer. */
    method WalkType(t: Type)
      requires Valid() && forall n :: n in Mentions(t) ==> Reached(table, start, n)
      requires Mentions(t) <= table.Keys
      modifies this
      ensures Valid() && Finished(old(seen)) && Mentions(t) <= seen
      ensures out == old(out) + ForeignNames(table, home, seen - old(seen))
      decreases table.Keys - seen, t, 2
    {
      if t.Absent? {
        return;
      }
      WalkNamedOrSignature(t);
      ghost var middle := seen;
      WalkComposite(t);
      ForeignAdd(table, home, old(seen), middle, seen);
    }

    /** The cases that look at names and at signatures. */
    method WalkNamedOrSignature(t: Type)
      requires Valid() && forall n :: n in Mentions(t) ==> Reached(table, start, n)
      requires Mentions(t) <= table.Keys
      modifies this
      ensures Valid() && Finished(old(seen))
      ensures t.Named? || t.Signature? ==> Mentions(t) <= seen
      ensures !t.Named? && !t.Signature? ==> seen == old(seen)
      ensures out == old(out) + ForeignNames(table, home, seen - old(seen))
      decreases table.Keys - seen, t, 1
    {
      match t
      case Named(n) =>
        if n in seen {
          return;
        }
        seen := seen + {n};
        var declaration := table[n];
        if declaration.package.Some? && declaration.package.value != home {
          out := out + {declaration.qualified};
        }
        forall m | m in Mentions(declaration.underlying) ensures Reached(table, start, m) {
          ReachNext(table, start, n, m);
        }
        ghost var entered := seen;
        WalkType(declaration.underlying);
        assert seen - old(seen) == {n} + (seen - entered);
      case Signature(params, results) =>
        MentionsParts(params, results);
        WalkTuple(t, params);
        ghost var middle := seen;
        WalkTuple(t, results);
        ForeignAdd(table, home, old(seen), middle, seen);
      case _ =>
    }

    /** The cases that go into the parts of a composite type. */
    method WalkComposite(t: Type)
      requires Valid() && forall n :: n in Mentions(t) ==> Reached(table, start, n)
      requires Mentions(t) <= table.Keys
      requires t.Named? || t.Signature? ==> Mentions(t) <= seen
      modifies this
      ensures Valid() && Finished(old(seen)) && Mentions(t) <= seen
      ensures out == old(out) + ForeignNames(table, home, seen - old(seen))
      decreases table.Keys - seen, t, 1
    {
      match t
      case Pointer(e) => WalkType(e);
      case Slice(e) => WalkType(e);
      case Array(e) => WalkType(e);
      case Map(k, e) =>
        WalkType(k);
        ghost var middle := seen;
        WalkType(e);
        ForeignAdd(table, home, old(seen), middle, seen);
      case Chan(e) => WalkType(e);
      case _ =>
    }

    method WalkTuple(ghost owner: Type, ts: seq<Type>)
      requires Valid() && forall n :: n in MentionsAll(ts) ==> Reached(table, start, n)
      requires MentionsAll(ts) <= table.Keys
      requires forall t :: t in ts ==> t < owner
      modifies this
      ensures Valid() && Finished(old(seen)) && MentionsAll(ts) <= seen
      ensures out == old(out) + ForeignNames(table, home, seen - old(seen))
      decreases table.Keys - seen, owner, 0
    {
      for i := 0 to |ts|
        invariant Valid() && Finished(old(seen))
        invariant MentionsAll(ts[..i]) <= seen
        invariant out == old(out) + ForeignNames(table, home, seen - old(seen))
      {
        ghost var before := seen;
        MentionsElement(ts, i);
        MentionsNext(ts, i);
        assert ts[i] in ts;
        WalkType(ts[i]);
        ForeignAdd(table, home, old(seen), before, seen);
      }
      assert ts[..|ts|] == ts;
    }
  }

  lemma ForeignAdd(table: Table, home: string, first: set<nat>, middle: set<nat>, last: set<nat>)
    requires first <= middle <= last
    ensures ForeignNames(table, home, last - first) ==
      ForeignNames(table, home, middle - first) + ForeignNames(table, home, last - middle)
  {
    assert last - first == (middle - first) + (last - middle);
  }

  lemma MentionsNext(ts: seq<Type>, i: nat)
    requires i < |ts|
    ensures MentionsAll(ts[..i + 1]) == MentionsAll(ts[..i]) + Mentions(ts[i])
  {
    MentionsSnoc(ts[..i], ts[i]);
    assert ts[..i + 1] == ts[..i] + [ts[i]];
  }

  lemma MentionsParts(params: seq<Type>, results: seq<Type>)
    ensures Mentions(Signature(params, results)) == MentionsAll(params) + MentionsAll(results)
  {
  }

  lemma {:induction false} MentionsElement(ts: seq<Type>, i: nat)
    requires i < |ts|
    ensures Mentions(ts[i]) <= MentionsAll(ts)
  {
    if i == 0 {
    } else {
      MentionsElement(ts[1..], i - 1);
    }
  }

  lemma {:induction false} MentionsSnoc(ts: seq<Type>, t: Type)
    ensures MentionsAll(ts + [t]) == MentionsAll(ts) + Mentions(t)
  {
    if ts == [] {
      assert MentionsAll([t]) == Mentions(t) + MentionsAll([]);
      assert ts + [t] == [t];
    } else {
      assert (ts + [t])[1..] == ts[1..] + [t];
      MentionsSnoc(ts[1..], t);
    }
  }

  /** The names added to `out` are exactly those of the foreign named types reachable from the type. */
  method CollectExternalNamedTypes(table: Table, home: string, t: Type,
                                   out: set<string>)
    returns (collected: set<string>)
    requires Declared(table, t)
    ensures collected == out + ReachableForeign(table, home, t)
  {
    var walk := new Walk(table, home, out, t);
    forall n | n in Mentions(t) ensures Reached(table, t, n) { ReachMentioned(table, t, n); }
    walk.WalkType(t);
    ghost var seen := walk.seen;
    forall n | n in table && Reached(table, t, n) ensures n in seen {
      var steps: nat :| ReachedIn(table, t, n, steps);
      ClosedHoldsReached(table, t, seen, n, steps);
    }
    assert seen - {} == seen;
    assert ForeignNames(table, home, seen) == ReachableForeign(table, home, t);
    collected := walk.out;
  }
}
